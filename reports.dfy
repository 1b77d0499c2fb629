/** The report page: the monthly income/expense pivot and the per-category
    breakdown of the profit and loss statement. */
module Reports {
  import opened LedgerTypes
  import opened Sums
  import opened Grouping
  import opened Metrics

  /** One row of the monthly pivot: the month, its Income and Expense sums (0
      where the month has no row of that type) and their difference. */
  datatype MonthRow = MonthRow(month: Month, income: int, expense: int, net: int)

  /** The rows dated in month m. */
  function InMonth(txs: seq<Transaction>, m: Month): seq<Transaction> {
    Group(txs, MonthColumn, MonthKey(m))
  }

  /** The pivot row of month m. */
  function PivotRow(txs: seq<Transaction>, m: Month): MonthRow {
    var g := InMonth(txs, m);
    MonthRow(m, KindTotal(g, Income), KindTotal(g, Expense), KindTotal(g, Income) - KindTotal(g, Expense))
  }

  function PivotRows(txs: seq<Transaction>, keys: seq<Key>): (rows: seq<MonthRow>)
    requires forall k :: k in keys ==> k.MonthKey?
    ensures |rows| == |keys|
    ensures forall i :: 0 <= i < |rows| ==> rows[i] == PivotRow(txs, keys[i].month)
  {
    if keys == [] then []
    else
      assert forall k :: k in keys[1..] ==> k in keys;
      [PivotRow(txs, keys[0].month)] + PivotRows(txs, keys[1..])
  }

  /** The monthly pivot: group by month and type, sum the amounts, one row per
      month with any transaction, the missing types filled with 0, and the net
      column added. The months run in ascending order, each once, and every
      row's net is its Income sum minus its Expense sum. */
  function MonthlyPivot(txs: seq<Transaction>): (r: seq<MonthRow>)
    ensures forall i, j :: 0 <= i < j < |r| ==> MonthBefore(r[i].month, r[j].month)
    ensures forall i :: 0 <= i < |r| ==> r[i].net == r[i].income - r[i].expense
  {
    var keys := GroupKeys(txs, MonthColumn);
    PivotRowsAscending(txs, keys);
    PivotRows(txs, keys)
  }

  /** Pivot rows over ascending month keys come in ascending month order. */
  lemma PivotRowsAscending(txs: seq<Transaction>, keys: seq<Key>)
    requires forall k :: k in keys ==> k.MonthKey?
    requires Ascending(keys)
    ensures forall i, j :: 0 <= i < j < |PivotRows(txs, keys)| ==>
              MonthBefore(PivotRows(txs, keys)[i].month, PivotRows(txs, keys)[j].month)
  {
    var rows := PivotRows(txs, keys);
    forall i, j | 0 <= i < j < |rows| ensures MonthBefore(rows[i].month, rows[j].month) {
      assert keys[i] in keys && keys[j] in keys;
      assert KeyLess(keys[i], keys[j]);
    }
  }

  /** The month axis holds exactly the months in which some row is dated. */
  lemma PivotMonths(txs: seq<Transaction>, m: Month)
    ensures (exists i :: 0 <= i < |MonthlyPivot(txs)| && MonthlyPivot(txs)[i].month == m)
            <==> exists t :: t in txs && MonthOf(t.date) == m
  {
    var keys := GroupKeys(txs, MonthColumn);
    var rows := MonthlyPivot(txs);
    if exists i :: 0 <= i < |rows| && rows[i].month == m {
      var i :| 0 <= i < |rows| && rows[i].month == m;
      assert keys[i] in keys;
      var t :| t in txs && KeyOf(t, MonthColumn) == keys[i];
    }
    if exists t :: t in txs && MonthOf(t.date) == m {
      var t :| t in txs && MonthOf(t.date) == m;
      assert KeyOf(t, MonthColumn) == MonthKey(m);
      assert MonthKey(m) in keys;
      var i :| 0 <= i < |keys| && keys[i] == MonthKey(m);
      assert rows[i].month == m;
    }
  }

  /** Every cell: the month's Income sum, its Expense sum, and net = Income -
      Expense; a type the month lacks reads 0. */
  lemma PivotCells(txs: seq<Transaction>, i: nat)
    requires i < |MonthlyPivot(txs)|
    ensures MonthlyPivot(txs)[i].income == KindTotal(InMonth(txs, MonthlyPivot(txs)[i].month), Income)
    ensures MonthlyPivot(txs)[i].expense == KindTotal(InMonth(txs, MonthlyPivot(txs)[i].month), Expense)
    ensures MonthlyPivot(txs)[i].net == MonthlyPivot(txs)[i].income - MonthlyPivot(txs)[i].expense
    ensures (forall t :: t in txs && MonthOf(t.date) == MonthlyPivot(txs)[i].month ==> t.kind != Income)
            ==> MonthlyPivot(txs)[i].income == 0
    ensures (forall t :: t in txs && MonthOf(t.date) == MonthlyPivot(txs)[i].month ==> t.kind != Expense)
            ==> MonthlyPivot(txs)[i].expense == 0
  {
    var m := MonthlyPivot(txs)[i].month;
    if forall t :: t in txs && MonthOf(t.date) == m ==> t.kind != Income {
      KindTotalAbsent(InMonth(txs, m), Income);
    }
    if forall t :: t in txs && MonthOf(t.date) == m ==> t.kind != Expense {
      KindTotalAbsent(InMonth(txs, m), Expense);
    }
  }

  /** Two rows dated in the same year and month land in the same pivot row. */
  lemma SameMonthSameBucket(txs: seq<Transaction>, a: Transaction, b: Transaction)
    requires a in txs && b in txs
    requires a.date.year == b.date.year && a.date.month == b.date.month
    ensures exists i :: 0 <= i < |MonthlyPivot(txs)|
              && a in InMonth(txs, MonthlyPivot(txs)[i].month)
              && b in InMonth(txs, MonthlyPivot(txs)[i].month)
  {
    var m := MonthOf(a.date);
    PivotMonths(txs, m);
    var i :| 0 <= i < |MonthlyPivot(txs)| && MonthlyPivot(txs)[i].month == m;
    assert KeyOf(a, MonthColumn) == MonthKey(m) && KeyOf(b, MonthColumn) == MonthKey(m);
  }

  function IncomeColumn(rows: seq<MonthRow>): int {
    if rows == [] then 0 else rows[0].income + IncomeColumn(rows[1..])
  }

  function ExpenseColumn(rows: seq<MonthRow>): int {
    if rows == [] then 0 else rows[0].expense + ExpenseColumn(rows[1..])
  }

  function NetColumn(rows: seq<MonthRow>): int {
    if rows == [] then 0 else rows[0].net + NetColumn(rows[1..])
  }

  lemma {:induction false} PivotRowsColumns(txs: seq<Transaction>, keys: seq<Key>)
    requires forall k :: k in keys ==> k.MonthKey?
    ensures IncomeColumn(PivotRows(txs, keys)) == GroupTotal(txs, MonthColumn, keys, Income)
    ensures ExpenseColumn(PivotRows(txs, keys)) == GroupTotal(txs, MonthColumn, keys, Expense)
    ensures NetColumn(PivotRows(txs, keys)) == IncomeColumn(PivotRows(txs, keys)) - ExpenseColumn(PivotRows(txs, keys))
  {
    if keys != [] {
      assert forall k :: k in keys[1..] ==> k in keys;
      PivotRowsColumns(txs, keys[1..]);
      assert PivotRows(txs, keys)[1..] == PivotRows(txs, keys[1..]);
      assert keys[0] in keys;
      assert MonthKey(keys[0].month) == keys[0];
    }
  }

  /** The monthly columns add up to the dashboard's figures: the Income column
      sums to the total income, the Expense column to the total expense, the
      net column to the profit. */
  lemma PivotAgreesWithMetrics(txs: seq<Transaction>)
    ensures IncomeColumn(MonthlyPivot(txs)) == CalculateMetrics(txs).income
    ensures ExpenseColumn(MonthlyPivot(txs)) == CalculateMetrics(txs).expense
    ensures NetColumn(MonthlyPivot(txs)) == CalculateMetrics(txs).profit
  {
    var keys := GroupKeys(txs, MonthColumn);
    PivotRowsColumns(txs, keys);
    GroupKeysTotal(txs, MonthColumn, Income);
    GroupKeysTotal(txs, MonthColumn, Expense);
    KeyedAll(txs, MonthColumn);
  }

  /** One row of a category table: the category and the sum of its amounts. */
  datatype CategoryRow = CategoryRow(category: string, amount: int)

  function CategoryRows(rows: seq<Transaction>, keys: seq<Key>, k: TxKind): (r: seq<CategoryRow>)
    requires forall key :: key in keys ==> key.Label?
    ensures |r| == |keys|
    ensures forall i :: 0 <= i < |r| ==>
              r[i] == CategoryRow(keys[i].text, KindTotal(Group(rows, CategoryColumn, keys[i]), k))
  {
    if keys == [] then []
    else
      assert forall key :: key in keys[1..] ==> key in keys;
      [CategoryRow(keys[0].text, KindTotal(Group(rows, CategoryColumn, keys[0]), k))] + CategoryRows(rows, keys[1..], k)
  }

  /** The rows of type k grouped by category, categories in ascending order,
      each with the sum of its amounts (the income and the expense tables of
      the profit and loss statement, and the expense pie of the dashboard).
      The categories come in ascending order of their text, each once. */
  function CategoryBreakdown(txs: seq<Transaction>, k: TxKind): (r: seq<CategoryRow>)
    ensures forall i, j :: 0 <= i < j < |r| ==> Order.StringLess(r[i].category, r[j].category)
    ensures forall i :: 0 <= i < |r| ==>
              r[i].amount == KindTotal(Group(OfKind(txs, k), CategoryColumn, Label(r[i].category)), k)
  {
    var rows := OfKind(txs, k);
    var keys := GroupKeys(rows, CategoryColumn);
    CategoryRowsAscending(rows, keys, k);
    CategoryRows(rows, keys, k)
  }

  /** Category rows over ascending label keys come in ascending text order. */
  lemma CategoryRowsAscending(rows: seq<Transaction>, keys: seq<Key>, k: TxKind)
    requires forall key :: key in keys ==> key.Label?
    requires Ascending(keys)
    ensures forall i, j :: 0 <= i < j < |CategoryRows(rows, keys, k)| ==>
              Order.StringLess(CategoryRows(rows, keys, k)[i].category, CategoryRows(rows, keys, k)[j].category)
  {
    var r := CategoryRows(rows, keys, k);
    forall i, j | 0 <= i < j < |r| ensures Order.StringLess(r[i].category, r[j].category) {
      assert keys[i] in keys && keys[j] in keys;
      assert KeyLess(keys[i], keys[j]);
    }
  }

  function CategoryColumnTotal(rows: seq<CategoryRow>): int {
    if rows == [] then 0 else rows[0].amount + CategoryColumnTotal(rows[1..])
  }

  /** The categories listed are exactly those of some row of type k. */
  lemma CategoryBreakdownKeys(txs: seq<Transaction>, k: TxKind, c: string)
    ensures (exists i :: 0 <= i < |CategoryBreakdown(txs, k)| && CategoryBreakdown(txs, k)[i].category == c)
            <==> exists t :: t in txs && t.kind == k && t.category == c
  {
    var r := CategoryBreakdown(txs, k);
    if exists i :: 0 <= i < |r| && r[i].category == c {
      var i :| 0 <= i < |r| && r[i].category == c;
      ListedCategoryOccurs(txs, k, i);
    }
    if exists t :: t in txs && t.kind == k && t.category == c {
      OccurringCategoryListed(txs, k, c);
    }
  }

  lemma ListedCategoryOccurs(txs: seq<Transaction>, k: TxKind, i: nat)
    requires i < |CategoryBreakdown(txs, k)|
    ensures exists t :: t in txs && t.kind == k && t.category == CategoryBreakdown(txs, k)[i].category
  {
    var rows := OfKind(txs, k);
    var keys := GroupKeys(rows, CategoryColumn);
    assert keys[i] in keys;
    var t :| t in rows && KeyOf(t, CategoryColumn) == keys[i];
    assert t in txs && t.kind == k;
  }

  lemma OccurringCategoryListed(txs: seq<Transaction>, k: TxKind, c: string)
    requires exists t :: t in txs && t.kind == k && t.category == c
    ensures exists i :: 0 <= i < |CategoryBreakdown(txs, k)| && CategoryBreakdown(txs, k)[i].category == c
  {
    var rows := OfKind(txs, k);
    var keys := GroupKeys(rows, CategoryColumn);
    var t :| t in txs && t.kind == k && t.category == c;
    assert t in rows && KeyOf(t, CategoryColumn) == Label(c);
    assert Label(c) in keys;
    var i :| 0 <= i < |keys| && keys[i] == Label(c);
    assert CategoryBreakdown(txs, k)[i].category == c;
  }

  lemma {:induction false} CategoryRowsTotal(rows: seq<Transaction>, keys: seq<Key>, k: TxKind)
    requires forall key :: key in keys ==> key.Label?
    ensures CategoryColumnTotal(CategoryRows(rows, keys, k)) == GroupTotal(rows, CategoryColumn, keys, k)
  {
    if keys != [] {
      assert forall key :: key in keys[1..] ==> key in keys;
      CategoryRowsTotal(rows, keys[1..], k);
      assert CategoryRows(rows, keys, k)[1..] == CategoryRows(rows, keys[1..], k);
    }
  }

  /** A category table sums to the total of its type. */
  lemma CategoryBreakdownTotal(txs: seq<Transaction>, k: TxKind)
    ensures CategoryColumnTotal(CategoryBreakdown(txs, k)) == KindTotal(txs, k)
  {
    var rows := OfKind(txs, k);
    var keys := GroupKeys(rows, CategoryColumn);
    assert forall key :: key in keys ==> key.Label?;
    CategoryRowsTotal(rows, keys, k);
    GroupKeysTotal(rows, CategoryColumn, k);
    KeyedAll(rows, CategoryColumn);
    OfKindTotal(txs, k, k);
  }

  /** The statement's net profit (income table total minus expense table
      total) is the dashboard's profit. */
  lemma StatementNetIsProfit(txs: seq<Transaction>)
    ensures CategoryColumnTotal(CategoryBreakdown(txs, Income)) - CategoryColumnTotal(CategoryBreakdown(txs, Expense))
            == CalculateMetrics(txs).profit
  {
    CategoryBreakdownTotal(txs, Income);
    CategoryBreakdownTotal(txs, Expense);
  }
}

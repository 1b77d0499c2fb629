/** The dashboard's headline figures (calculate_metrics). */
module Metrics {
  import opened LedgerTypes
  import opened Sums

  datatype Figures = Figures(income: int, expense: int, profit: int, margin: real)

  /** Profit as a percentage of income; 0 when there is no income. */
  function Margin(profit: int, income: int): (m: real)
    ensures income > 0 ==> m * income as real == profit as real * 100.0
    ensures income <= 0 ==> m == 0.0
  {
    if income > 0 then profit as real / income as real * 100.0 else 0.0
  }

  /** calculate_metrics: an empty frame yields zeros; otherwise the income and
      expense sums, their difference and the margin. */
  function CalculateMetrics(txs: seq<Transaction>): (f: Figures)
    ensures f.income == KindTotal(txs, Income)
    ensures f.expense == KindTotal(txs, Expense)
    ensures f.profit == f.income - f.expense
    ensures f.margin == Margin(f.profit, f.income)
  {
    if txs == [] then Figures(0, 0, 0, 0.0)
    else
      var income := KindTotal(txs, Income);
      var expense := KindTotal(txs, Expense);
      var profit := income - expense;
      Figures(income, expense, profit, Margin(profit, income))
  }

  lemma MetricsOfEmpty()
    ensures CalculateMetrics([]) == Figures(0, 0, 0, 0.0)
  {
  }

  /** Reordering the rows changes none of the figures. */
  lemma MetricsOrderIndependent(a: seq<Transaction>, b: seq<Transaction>)
    requires multiset(a) == multiset(b)
    ensures CalculateMetrics(a) == CalculateMetrics(b)
  {
    KindTotalPermutation(a, b, Income);
    KindTotalPermutation(a, b, Expense);
  }

  /** Only Income and Expense rows feed the figures: dropping every row of any
      other type leaves them as they are. */
  lemma MetricsIgnoreOtherTypes(txs: seq<Transaction>)
    ensures CalculateMetrics(OfKind(txs, Income) + OfKind(txs, Expense)) == CalculateMetrics(txs)
  {
    var kept := OfKind(txs, Income) + OfKind(txs, Expense);
    KindTotalAppend(OfKind(txs, Income), OfKind(txs, Expense), Income);
    KindTotalAppend(OfKind(txs, Income), OfKind(txs, Expense), Expense);
    OfKindTotal(txs, Income, Expense);
    OfKindTotal(txs, Expense, Income);
  }

  /** A row of another type appended to the ledger changes nothing. */
  lemma MetricsIgnoreOtherRow(txs: seq<Transaction>, t: Transaction)
    requires t.kind.Other?
    ensures CalculateMetrics(txs + [t]) == CalculateMetrics(txs)
  {
    KindTotalAppend(txs, [t], Income);
    KindTotalAppend(txs, [t], Expense);
  }

  /** With non-negative amounts and some income, the margin is at most 100 %. */
  lemma MarginAtMostHundred(txs: seq<Transaction>)
    requires NonNegativeAmounts(txs)
    requires KindTotal(txs, Income) > 0
    ensures CalculateMetrics(txs).margin <= 100.0
  {
    KindTotalNonNegative(txs, Expense);
    var f := CalculateMetrics(txs);
    MarginBound(f.profit, f.income);
  }

  lemma MarginBound(profit: int, income: int)
    requires 0 < income && profit <= income
    ensures Margin(profit, income) <= 100.0
  {
    var share := profit as real / income as real;
    assert share <= 1.0;
  }
}

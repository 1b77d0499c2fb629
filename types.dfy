/** Entities of the finance ledger: transactions, projects and the values they carry. */
module LedgerTypes {

  datatype Option<T> = None | Some(value: T)

  /** A calendar date. The store keeps it as 'YYYY-MM-DD' text. */
  datatype Date = Date(year: nat, month: nat, day: nat)

  /** A date that the 'YYYY-MM-DD' text form can hold. */
  predicate ValidDate(d: Date) {
    d.year <= 9999 && 1 <= d.month <= 12 && 1 <= d.day <= 31
  }

  /** The date text read as the number YYYYMMDD. The store compares dates as
      text ('BETWEEN', 'ORDER BY date'); for valid dates that text order is the
      numeric order of this key. */
  function DateKey(d: Date): int {
    d.year * 10000 + d.month * 100 + d.day
  }

  /** Lexicographic order on (year, month, day). */
  predicate DateLe(a: Date, b: Date) {
    a.year < b.year || (a.year == b.year && (a.month < b.month || (a.month == b.month && a.day <= b.day)))
  }

  lemma DateKeyStep(a: Date, b: Date)
    requires ValidDate(a) && ValidDate(b)
    ensures a.year < b.year ==> DateKey(a) < DateKey(b)
    ensures a.year == b.year && a.month < b.month ==> DateKey(a) < DateKey(b)
  {
    if a.year < b.year {
      assert a.year * 10000 + 10000 <= b.year * 10000;
    }
    if a.year == b.year && a.month < b.month {
      assert a.month * 100 + 100 <= b.month * 100;
    }
  }

  /** For valid dates, comparing the keys is comparing the dates. */
  lemma DateKeyOrder(a: Date, b: Date)
    requires ValidDate(a) && ValidDate(b)
    ensures DateKey(a) <= DateKey(b) <==> DateLe(a, b)
  {
    DateKeyStep(a, b);
    DateKeyStep(b, a);
  }

  /** The report's bucket: the year and month of a date (the day is dropped). */
  datatype Month = Month(year: nat, month: nat)

  function MonthOf(d: Date): Month {
    Month(d.year, d.month)
  }

  /** Strict order of months; the 'YYYY-MM' text of a month sorts this way. */
  predicate MonthBefore(a: Month, b: Month) {
    a.year < b.year || (a.year == b.year && a.month < b.month)
  }

  /** Two dates of the same year and month fall in the same month, and date
      order never reverses month order. */
  lemma MonthOfMonotone(a: Date, b: Date)
    ensures a.year == b.year && a.month == b.month ==> MonthOf(a) == MonthOf(b)
    ensures DateLe(a, b) ==> MonthOf(a) == MonthOf(b) || MonthBefore(MonthOf(a), MonthOf(b))
  {
  }

  /** The transaction type column. The interactive form writes one of the two
      Korean labels; an imported row may carry any label. */
  datatype TxKind = Income | Expense | Other(text: string)

  const IncomeLabel: string := "수입"
  const ExpenseLabel: string := "지출"

  /** An Other kind never carries one of the two recognised labels. */
  predicate WellFormedKind(k: TxKind) {
    k.Other? ==> k.text != IncomeLabel && k.text != ExpenseLabel
  }

  function KindLabel(k: TxKind): string {
    match k
    case Income => IncomeLabel
    case Expense => ExpenseLabel
    case Other(s) => s
  }

  /** Reads the text of the type column. */
  function ParseKind(s: string): (k: TxKind)
    ensures WellFormedKind(k)
    ensures KindLabel(k) == s
    ensures k == Income <==> s == IncomeLabel
    ensures k == Expense <==> s == ExpenseLabel
  {
    if s == IncomeLabel then Income
    else if s == ExpenseLabel then Expense
    else Other(s)
  }

  /** Writing a well-formed kind and reading it back gives the same kind. */
  lemma ParseKindLabel(k: TxKind)
    requires WellFormedKind(k)
    ensures ParseKind(KindLabel(k)) == k
  {
  }

  /** A row of the transactions table. */
  datatype Transaction = Transaction(
    id: nat,
    date: Date,
    kind: TxKind,
    category: string,
    project: Option<string>,
    description: string,
    amount: int)

  /** The sort key of a row: its date. */
  function TxDateKey(t: Transaction): int {
    DateKey(t.date)
  }

  /** The status column of a project: 'active' (the default) or any other text. */
  datatype Status = Active | Inactive(text: string)

  const ActiveLabel: string := "active"

  /** An Inactive status never carries the text 'active'. */
  predicate WellFormedStatus(s: Status) {
    s.Inactive? ==> s.text != ActiveLabel
  }

  /** A row of the projects table. */
  datatype Project = Project(
    id: nat,
    name: string,
    client: string,
    budget: int,
    status: Status)
}

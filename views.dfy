/** Derived rules of the pages: the transaction list's column filters and
    filtered total, the dashboard's "recent" rows, and a project's card with
    its budget progress. */
module Views {
  import opened LedgerTypes
  import opened Sums
  import opened Sorting
  import opened Grouping
  import opened Profitability

  /** What the user picked in the three multiselects; an empty pick means
      "do not filter on this column". */
  datatype Selection = Selection(types: seq<TxKind>, categories: seq<string>, projects: seq<string>)

  /** One column filter ('isin'). A row without a project is in no list. */
  datatype Criterion = KindIn(kinds: seq<TxKind>) | CategoryIn(categories: seq<string>) | ProjectIn(names: seq<string>)

  predicate Meets(t: Transaction, c: Criterion) {
    match c
    case KindIn(kinds) => t.kind in kinds
    case CategoryIn(categories) => t.category in categories
    case ProjectIn(names) => t.project.Some? && t.project.value in names
  }

  /** A row is listed when it passes every column whose pick is not empty. */
  predicate Shown(t: Transaction, sel: Selection) {
    && (sel.types == [] || Meets(t, KindIn(sel.types)))
    && (sel.categories == [] || Meets(t, CategoryIn(sel.categories)))
    && (sel.projects == [] || Meets(t, ProjectIn(sel.projects)))
  }

  /** The listed rows, in the order of the frame. */
  function Visible(df: seq<Transaction>, sel: Selection): (r: seq<Transaction>)
    ensures forall t :: t in r <==> t in df && Shown(t, sel)
    ensures forall t :: multiset(r)[t] == if Shown(t, sel) then multiset(df)[t] else 0
    ensures |r| <= |df|
  {
    if df == [] then []
    else
      assert df == [df[0]] + df[1..];
      assert forall t :: t in df <==> t == df[0] || t in df[1..];
      assert multiset(df) == multiset{df[0]} + multiset(df[1..]);
      if Shown(df[0], sel) then [df[0]] + Visible(df[1..], sel) else Visible(df[1..], sel)
  }

  /** One filtering step: 'filtered_df[filtered_df[col].isin(pick)]'. */
  function Keep(s: seq<Transaction>, c: Criterion): (r: seq<Transaction>)
    ensures forall t :: t in r <==> t in s && Meets(t, c)
    ensures forall t :: multiset(r)[t] == if Meets(t, c) then multiset(s)[t] else 0
    ensures |r| <= |s|
  {
    if s == [] then []
    else
      assert s == [s[0]] + s[1..];
      assert forall t :: t in s <==> t == s[0] || t in s[1..];
      assert multiset(s) == multiset{s[0]} + multiset(s[1..]);
      if Meets(s[0], c) then [s[0]] + Keep(s[1..], c)
      else Keep(s[1..], c)
  }

  /** Filtering what is listed under sel by one more column gives what is
      listed under the narrower selection. */
  lemma {:induction false} KeepNarrows(df: seq<Transaction>, sel: Selection, c: Criterion, narrower: Selection)
    requires forall t :: Shown(t, narrower) == (Shown(t, sel) && Meets(t, c))
    ensures Keep(Visible(df, sel), c) == Visible(df, narrower)
  {
    if df != [] {
      KeepNarrows(df[1..], sel, c, narrower);
      if Shown(df[0], sel) {
        assert Visible(df, sel) == [df[0]] + Visible(df[1..], sel);
        assert ([df[0]] + Visible(df[1..], sel))[1..] == Visible(df[1..], sel);
      }
    }
  }

  /** With nothing picked, every row is listed. */
  lemma {:induction false} EmptySelectionShowsAll(df: seq<Transaction>)
    ensures Visible(df, Selection([], [], [])) == df
  {
    if df != [] {
      EmptySelectionShowsAll(df[1..]);
      assert df == [df[0]] + df[1..];
    }
  }

  /** The list view: start from a copy of the frame, narrow it by each column
      whose pick is not empty, and sum the amount column of what is left. */
  method FilterList(df: seq<Transaction>, sel: Selection) returns (filtered: seq<Transaction>, total: int)
    ensures filtered == Visible(df, sel)
    ensures total == AmountTotal(filtered)
  {
    EmptySelectionShowsAll(df);
    filtered := df;
    var applied := Selection([], [], []);
    if sel.types != [] {
      KeepNarrows(df, applied, KindIn(sel.types), applied.(types := sel.types));
      filtered := Keep(filtered, KindIn(sel.types));
    }
    applied := applied.(types := sel.types);
    assert filtered == Visible(df, applied);
    if sel.categories != [] {
      KeepNarrows(df, applied, CategoryIn(sel.categories), applied.(categories := sel.categories));
      filtered := Keep(filtered, CategoryIn(sel.categories));
    }
    applied := applied.(categories := sel.categories);
    assert filtered == Visible(df, applied);
    if sel.projects != [] {
      KeepNarrows(df, applied, ProjectIn(sel.projects), applied.(projects := sel.projects));
      filtered := Keep(filtered, ProjectIn(sel.projects));
    }
    applied := applied.(projects := sel.projects);
    assert applied == sel;
    total := AmountTotal(filtered);
  }

  /** The filtered total adds Income and Expense amounts alike: with no row of
      another type it is the income plus the expense of the listed rows. */
  lemma FilteredTotalIsGross(df: seq<Transaction>, sel: Selection)
    requires forall t :: t in df ==> t.kind == Income || t.kind == Expense
    ensures AmountTotal(Visible(df, sel)) == KindTotal(Visible(df, sel), Income) + KindTotal(Visible(df, sel), Expense)
  {
    var v := Visible(df, sel);
    assert forall i :: 0 <= i < |v| ==> v[i] in v;
    AmountTotalSplits(v);
  }

  const RecentCount: nat := 10

  /** 'df.head(10)': the first ten rows, or all of them when there are fewer. */
  function Recent(df: seq<Transaction>): (r: seq<Transaction>)
    ensures |r| == if |df| < RecentCount then |df| else RecentCount
    ensures forall i :: 0 <= i < |r| ==> r[i] == df[i]
  {
    if |df| < RecentCount then df else df[..RecentCount]
  }

  /** On a frame ordered by date (latest first), the recent rows are the
      latest ones: none of the rows left out is later than any row shown. */
  lemma RecentAreLatest(df: seq<Transaction>, i: nat, j: nat)
    requires SortedDesc(df, TxDateKey)
    requires i < |Recent(df)| <= j < |df|
    ensures TxDateKey(Recent(df)[i]) >= TxDateKey(df[j])
  {
    assert Recent(df)[i] == df[i];
  }

  function Min(a: real, b: real): real {
    if a <= b then a else b
  }

  /** Income as a share of the budget, capped at 1; only defined for a
      positive budget. */
  function BudgetProgress(income: int, budget: int): (p: Option<real>)
    ensures p.Some? <==> budget > 0
    ensures p.Some? ==> p.value <= 1.0
    ensures p.Some? && income >= 0 ==> 0.0 <= p.value
    ensures p.Some? ==> (p.value == 1.0 <==> income >= budget)
    ensures p.Some? && income < budget ==> p.value * budget as real == income as real
  {
    if budget > 0 then
      var share := income as real / budget as real;
      assert share * budget as real == income as real;
      assert share >= 1.0 <==> share * budget as real >= 1.0 * budget as real;
      Some(Min(share, 1.0))
    else None
  }

  /** What a project's card shows once it has transactions. */
  datatype ProjectCard = ProjectCard(income: int, expense: int, profit: int, progress: Option<real>)

  function Cards(df: seq<Transaction>, p: Project): (card: Option<ProjectCard>)
    ensures card.None? <==> forall t :: t in df ==> t.project != Some(p.name)
    ensures card.Some? ==>
              && card.value.income == KindTotal(RowsOf(df, p.name), Income)
              && card.value.expense == KindTotal(RowsOf(df, p.name), Expense)
              && card.value.profit == card.value.income - card.value.expense
              && card.value.progress == BudgetProgress(card.value.income, p.budget)
  {
    var rows := RowsOf(df, p.name);
    if rows == [] then
      assert forall t :: t in df && t.project == Some(p.name) ==> t in rows;
      None
    else
      assert rows[0] in rows;
      var income := KindTotal(rows, Income);
      var expense := KindTotal(rows, Expense);
      Some(ProjectCard(income, expense, income - expense, BudgetProgress(income, p.budget)))
  }

  /** The card's profit is the net that project_profitability reports for the
      same project. */
  lemma CardAgreesWithProfitability(df: seq<Transaction>, p: Project)
    requires Cards(df, p).Some?
    ensures exists i :: 0 <= i < |ProjectProfitability(df)|
              && ProjectProfitability(df)[i] == ProjectNet(p.name, Cards(df, p).value.profit)
  {
    var t :| t in df && t.project == Some(p.name);
    ProfitabilityNames(df, p.name);
    var i :| 0 <= i < |ProjectProfitability(df)| && ProjectProfitability(df)[i].name == p.name;
    assert ProjectProfitability(df)[i] in ProjectProfitability(df);
  }

  /** With non-negative amounts, the progress bar stays within [0, 1]. */
  lemma ProgressInUnitRange(df: seq<Transaction>, p: Project)
    requires NonNegativeAmounts(df)
    requires Cards(df, p).Some? && Cards(df, p).value.progress.Some?
    ensures 0.0 <= Cards(df, p).value.progress.value <= 1.0
  {
    var rows := RowsOf(df, p.name);
    assert NonNegativeAmounts(rows) by {
      forall i | 0 <= i < |rows| ensures rows[i].amount >= 0 {
        assert rows[i] in rows;
        var j :| 0 <= j < |df| && df[j] == rows[i];
      }
    }
    KindTotalNonNegative(rows, Income);
  }
}

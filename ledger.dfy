/** The ledger: the transactions and projects tables, the ways rows get into
    them (a form save, a project save, a spreadsheet import) and the two
    queries the pages run. */
module LedgerStore {
  import opened LedgerTypes
  import opened Sorting

  /** A row of an imported spreadsheet: the six columns, taken as they are. */
  datatype ImportRow = ImportRow(
    date: Date,
    typeText: string,
    category: string,
    project: Option<string>,
    description: string,
    amount: int)

  /** The table row an imported row becomes, under the given id: every column
      is stored as it is, and the type text reads back unchanged. */
  function FromRow(row: ImportRow, id: nat): (t: Transaction)
    ensures t.id == id && t.date == row.date && t.amount == row.amount
    ensures t.category == row.category && t.project == row.project && t.description == row.description
    ensures WellFormedKind(t.kind) && KindLabel(t.kind) == row.typeText
  {
    Transaction(id, row.date, ParseKind(row.typeText), row.category, row.project, row.description, row.amount)
  }

  /** The rows of a batch with consecutive ids, starting at first. */
  function Stamp(rows: seq<ImportRow>, first: nat): (r: seq<Transaction>)
    ensures |r| == |rows|
    ensures forall i :: 0 <= i < |r| ==> r[i] == FromRow(rows[i], first + i)
  {
    if rows == [] then [] else [FromRow(rows[0], first)] + Stamp(rows[1..], first + 1)
  }

  /** Importing the same batch twice yields rows that differ only in their ids:
      nothing is deduplicated. */
  lemma ReimportDuplicates(rows: seq<ImportRow>, first: nat, again: nat, i: nat)
    requires i < |rows|
    ensures Stamp(rows, again)[i] == Stamp(rows, first)[i].(id := again + i)
  {
  }

  /** 'date BETWEEN start AND end': both bounds inclusive. For valid dates
      this is start <= d <= end in calendar order. */
  function InWindow(d: Date, start: Date, end: Date): (r: bool)
    ensures ValidDate(d) && ValidDate(start) && ValidDate(end) ==>
              (r <==> DateLe(start, d) && DateLe(d, end))
  {
    if ValidDate(d) && ValidDate(start) && ValidDate(end) then
      DateKeyOrder(start, d);
      DateKeyOrder(d, end);
      DateKey(start) <= DateKey(d) <= DateKey(end)
    else
      DateKey(start) <= DateKey(d) <= DateKey(end)
  }

  /** The rows get_transactions selects: those in the window when both bounds
      are given, all rows otherwise. */
  function Window(txs: seq<Transaction>, start: Option<Date>, end: Option<Date>): (r: seq<Transaction>)
    ensures start.Some? && end.Some? ==>
              forall t :: t in r <==> t in txs && InWindow(t.date, start.value, end.value)
    ensures start.Some? && end.Some? ==>
              forall t :: multiset(r)[t] == if InWindow(t.date, start.value, end.value) then multiset(txs)[t] else 0
  {
    if start.None? || end.None? then txs
    else if txs == [] then []
    else
      assert txs == [txs[0]] + txs[1..];
      assert forall t :: t in txs <==> t == txs[0] || t in txs[1..];
      assert multiset(txs) == multiset{txs[0]} + multiset(txs[1..]);
      if InWindow(txs[0].date, start.value, end.value) then [txs[0]] + Window(txs[1..], start, end)
      else Window(txs[1..], start, end)
  }

  /** The projects get_projects returns: those whose status is 'active', in
      table order. */
  function ActiveProjects(ps: seq<Project>): (r: seq<Project>)
    ensures forall p :: p in r <==> p in ps && p.status == Active
    ensures forall p :: multiset(r)[p] == if p.status == Active then multiset(ps)[p] else 0
  {
    if ps == [] then []
    else
      assert ps == [ps[0]] + ps[1..];
      assert forall p :: p in ps <==> p == ps[0] || p in ps[1..];
      assert multiset(ps) == multiset{ps[0]} + multiset(ps[1..]);
      if ps[0].status == Active then [ps[0]] + ActiveProjects(ps[1..]) else ActiveProjects(ps[1..])
  }

  /** What the project form reports. */
  datatype ProjectOutcome = Created | DuplicateName | EmptyName

  class Ledger {
    /** The transactions table, in insertion order. */
    var transactions: seq<Transaction>
    /** The projects table, in insertion order. */
    var projects: seq<Project>
    /** The next AUTOINCREMENT id of each table. */
    var nextTransactionId: nat
    var nextProjectId: nat

    /** Ids grow with insertion order and stay below the counters; project
        names are unique (the UNIQUE constraint on 'name'); every type and
        status value stands for exactly one text. */
    ghost predicate Valid()
      reads this
    {
      && 1 <= nextTransactionId && 1 <= nextProjectId
      && (forall i :: 0 <= i < |transactions| ==> WellFormedKind(transactions[i].kind))
      && (forall i :: 0 <= i < |projects| ==> WellFormedStatus(projects[i].status))
      && (forall i, j :: 0 <= i < j < |transactions| ==> transactions[i].id < transactions[j].id)
      && (forall i :: 0 <= i < |transactions| ==> transactions[i].id < nextTransactionId)
      && (forall i, j :: 0 <= i < j < |projects| ==> projects[i].id < projects[j].id)
      && (forall i :: 0 <= i < |projects| ==> projects[i].id < nextProjectId)
      && (forall i, j :: 0 <= i < j < |projects| ==> projects[i].name != projects[j].name)
    }

    /** init_db on a fresh database: both tables empty. */
    constructor ()
      ensures Valid()
      ensures transactions == [] && projects == []
      ensures nextTransactionId == 1 && nextProjectId == 1
    {
      transactions := [];
      projects := [];
      nextTransactionId := 1;
      nextProjectId := 1;
    }

    /** Some project, of any status, already has this exact name. */
    predicate NameTaken(name: string)
      reads this
    {
      exists p :: p in projects && p.name == name
    }

    /** add_transaction: insert one row under the next id. */
    method AddTransaction(date: Date, kind: TxKind, category: string, project: Option<string>,
                          description: string, amount: int) returns (id: nat)
      requires Valid()
      requires WellFormedKind(kind)
      modifies this
      ensures Valid()
      ensures id == old(nextTransactionId) && nextTransactionId == id + 1
      ensures transactions == old(transactions) + [Transaction(id, date, kind, category, project, description, amount)]
      ensures projects == old(projects) && nextProjectId == old(nextProjectId)
    {
      id := nextTransactionId;
      transactions := transactions + [Transaction(id, date, kind, category, project, description, amount)];
      nextTransactionId := nextTransactionId + 1;
    }

    /** add_project: insert a project with status 'active', or report False
        and change nothing when the name is taken. */
    method AddProject(name: string, client: string, budget: int) returns (ok: bool)
      requires Valid()
      modifies this
      ensures Valid()
      ensures ok <==> !old(NameTaken(name))
      ensures ok ==> projects == old(projects) + [Project(old(nextProjectId), name, client, budget, Active)]
                     && nextProjectId == old(nextProjectId) + 1
      ensures !ok ==> projects == old(projects) && nextProjectId == old(nextProjectId)
      ensures transactions == old(transactions) && nextTransactionId == old(nextTransactionId)
    {
      if NameTaken(name) {
        ok := false;
      } else {
        projects := projects + [Project(nextProjectId, name, client, budget, Active)];
        nextProjectId := nextProjectId + 1;
        ok := true;
      }
    }

    /** The transaction form's save button: a row is written only for a
        positive amount. */
    method SaveTransaction(date: Date, kind: TxKind, category: string, project: Option<string>,
                           description: string, amount: int) returns (saved: bool)
      requires Valid()
      requires WellFormedKind(kind)
      modifies this
      ensures Valid()
      ensures saved <==> amount > 0
      ensures saved ==> transactions == old(transactions)
                          + [Transaction(old(nextTransactionId), date, kind, category, project, description, amount)]
                        && nextTransactionId == old(nextTransactionId) + 1
      ensures !saved ==> transactions == old(transactions) && nextTransactionId == old(nextTransactionId)
      ensures projects == old(projects) && nextProjectId == old(nextProjectId)
    {
      saved := amount > 0;
      if saved {
        var _ := AddTransaction(date, kind, category, project, description, amount);
      }
    }

    /** The project form's save button: an empty name is refused before the
        store is asked; a taken name is refused by the store. */
    method SaveProject(name: string, client: string, budget: int) returns (outcome: ProjectOutcome)
      requires Valid()
      modifies this
      ensures Valid()
      ensures outcome == EmptyName <==> name == ""
      ensures outcome == DuplicateName <==> name != "" && old(NameTaken(name))
      ensures outcome == Created ==> projects == old(projects) + [Project(old(nextProjectId), name, client, budget, Active)]
                                     && nextProjectId == old(nextProjectId) + 1
      ensures outcome != Created ==> projects == old(projects) && nextProjectId == old(nextProjectId)
      ensures transactions == old(transactions) && nextTransactionId == old(nextTransactionId)
    {
      if name == "" {
        outcome := EmptyName;
      } else {
        var ok := AddProject(name, client, budget);
        outcome := if ok then Created else DuplicateName;
      }
    }

    /** The import button: append every row of the batch, with no check on
        the amount or the type and no deduplication, and report the count. */
    method Import(rows: seq<ImportRow>) returns (count: nat)
      requires Valid()
      modifies this
      ensures Valid()
      ensures transactions == old(transactions) + Stamp(rows, old(nextTransactionId))
      ensures |transactions| == |old(transactions)| + |rows|
      ensures nextTransactionId == old(nextTransactionId) + |rows|
      ensures count == |rows|
      ensures projects == old(projects) && nextProjectId == old(nextProjectId)
    {
      var added := Stamp(rows, nextTransactionId);
      transactions := transactions + added;
      nextTransactionId := nextTransactionId + |rows|;
      count := |rows|;
    }

    /** get_transactions: the rows in the window (all rows unless both bounds
        are given), latest date first. */
    method GetTransactions(start: Option<Date>, end: Option<Date>) returns (r: seq<Transaction>)
      requires Valid()
      ensures SortedDesc(r, TxDateKey)
      ensures multiset(r) == multiset(Window(transactions, start, end))
      ensures start.Some? && end.Some? ==>
                forall t :: t in r <==> t in transactions && InWindow(t.date, start.value, end.value)
      ensures start.None? || end.None? ==> multiset(r) == multiset(transactions)
    {
      r := SortDesc(Window(transactions, start, end), TxDateKey);
      SortDescMembers(Window(transactions, start, end), TxDateKey);
    }

    /** get_projects: the active projects. */
    method GetProjects() returns (r: seq<Project>)
      requires Valid()
      ensures forall p :: p in r <==> p in projects && p.status == Active
      ensures forall p :: multiset(r)[p] == if p.status == Active then multiset(projects)[p] else 0
      ensures r == ActiveProjects(projects)
    {
      r := ActiveProjects(projects);
    }
  }
}

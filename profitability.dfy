/** Per-project net contribution (project_profitability). */
module Profitability {
  import opened LedgerTypes
  import opened Sums
  import opened Sorting
  import opened Grouping

  datatype ProjectNet = ProjectNet(name: string, net: int)

  function NetKey(p: ProjectNet): int {
    p.net
  }

  /** The rows attributed to the project called name. */
  function RowsOf(txs: seq<Transaction>, name: string): seq<Transaction> {
    Group(txs, ProjectColumn, Label(name))
  }

  /** A project's Income sum minus its Expense sum. */
  function NetOf(txs: seq<Transaction>, name: string): int {
    KindTotal(RowsOf(txs, name), Income) - KindTotal(RowsOf(txs, name), Expense)
  }

  /** The project names that occur in txs. */
  ghost predicate Attributed(txs: seq<Transaction>, name: string) {
    exists t :: t in txs && t.project == Some(name)
  }

  ghost predicate DistinctNames(rows: seq<ProjectNet>) {
    forall i, j :: 0 <= i < j < |rows| ==> rows[i].name != rows[j].name
  }

  /** One row per project key, in key order. */
  function NetRows(txs: seq<Transaction>, keys: seq<Key>): (rows: seq<ProjectNet>)
    requires forall k :: k in keys ==> k.Label?
    ensures |rows| == |keys|
    ensures forall i :: 0 <= i < |rows| ==> rows[i] == ProjectNet(keys[i].text, NetOf(txs, keys[i].text))
  {
    if keys == [] then []
    else [ProjectNet(keys[0].text, NetOf(txs, keys[0].text))] + NetRows(txs, keys[1..])
  }

  /** project_profitability: group the rows that name a project, net each
      group, order by net, largest first. Each output row carries its
      project's Income sum minus its Expense sum, and the rows run from the
      largest net to the smallest. */
  function ProjectProfitability(txs: seq<Transaction>): (r: seq<ProjectNet>)
    ensures SortedDesc(r, NetKey)
    ensures forall p :: p in r ==> p.net == NetOf(txs, p.name)
  {
    var keys := GroupKeys(txs, ProjectColumn);
    assert forall k :: k in keys ==> k.Label?;
    var rows := NetRows(txs, keys);
    NetRowsNets(txs, keys);
    SortDescMembers(rows, NetKey);
    SortDesc(rows, NetKey)
  }

  lemma NetRowsNets(txs: seq<Transaction>, keys: seq<Key>)
    requires forall k :: k in keys ==> k.Label?
    ensures forall p :: p in NetRows(txs, keys) ==> p.net == NetOf(txs, p.name)
  {
    var rows := NetRows(txs, keys);
    forall p | p in rows ensures p.net == NetOf(txs, p.name) {
      var i :| 0 <= i < |rows| && rows[i] == p;
    }
  }

  lemma DistinctNamesTail(s: seq<ProjectNet>)
    requires s != [] && DistinctNames(s)
    ensures DistinctNames(s[1..])
    ensures forall y :: y in s[1..] ==> y.name != s[0].name
  {
    forall y | y in s[1..] ensures y.name != s[0].name {
      var i :| 0 <= i < |s[1..]| && s[1..][i] == y;
      assert s[i + 1] == y;
    }
    forall i, j | 0 <= i < j < |s[1..]| ensures s[1..][i].name != s[1..][j].name {
      assert s[1..][i] == s[i + 1] && s[1..][j] == s[j + 1];
    }
  }

  lemma {:induction false} InsertKeepsDistinctNames(x: ProjectNet, s: seq<ProjectNet>)
    requires DistinctNames(s)
    requires forall y :: y in s ==> y.name != x.name
    ensures DistinctNames(Insert(x, s, NetKey))
  {
    if s == [] || NetKey(x) >= NetKey(s[0]) {
      var r := [x] + s;
      forall i, j | 0 <= i < j < |r| ensures r[i].name != r[j].name {
        assert r[j] == s[j - 1];
        if i > 0 {
          assert r[i] == s[i - 1];
        } else {
          assert s[j - 1] in s;
        }
      }
      assert Insert(x, s, NetKey) == r;
    } else {
      var tail := Insert(x, s[1..], NetKey);
      DistinctNamesTail(s);
      assert forall y :: y in s[1..] ==> y in s;
      InsertKeepsDistinctNames(x, s[1..]);
      var r := [s[0]] + tail;
      forall i, j | 0 <= i < j < |r| ensures r[i].name != r[j].name {
        assert r[j] == tail[j - 1];
        if i > 0 {
          assert r[i] == tail[i - 1];
        } else {
          assert r[j] in tail;
          InsertMember(x, s[1..], NetKey, r[j]);
          assert s[0] in s;
        }
      }
      assert Insert(x, s, NetKey) == r;
    }
  }

  lemma {:induction false} SortKeepsDistinctNames(s: seq<ProjectNet>)
    requires DistinctNames(s)
    ensures DistinctNames(SortDesc(s, NetKey))
  {
    if s != [] {
      DistinctNamesTail(s);
      SortKeepsDistinctNames(s[1..]);
      var sorted := SortDesc(s[1..], NetKey);
      SortDescMembers(s[1..], NetKey);
      InsertKeepsDistinctNames(s[0], sorted);
    }
  }

  /** project_profitability lists exactly the projects named by some row. */
  lemma ProfitabilityNames(txs: seq<Transaction>, name: string)
    ensures (exists i :: 0 <= i < |ProjectProfitability(txs)| && ProjectProfitability(txs)[i].name == name)
            <==> Attributed(txs, name)
  {
    var r := ProjectProfitability(txs);
    if exists i :: 0 <= i < |r| && r[i].name == name {
      var i :| 0 <= i < |r| && r[i].name == name;
      ListedIsAttributed(txs, i);
    }
    if Attributed(txs, name) {
      AttributedIsListed(txs, name);
    }
  }

  lemma ListedIsAttributed(txs: seq<Transaction>, i: nat)
    requires i < |ProjectProfitability(txs)|
    ensures Attributed(txs, ProjectProfitability(txs)[i].name)
  {
    var keys := GroupKeys(txs, ProjectColumn);
    assert forall k :: k in keys ==> k.Label?;
    var rows := NetRows(txs, keys);
    var r := ProjectProfitability(txs);
    var name := r[i].name;
    SortDescMember(rows, NetKey, r[i]);
    assert r[i] in rows;
    var j :| 0 <= j < |rows| && rows[j] == r[i];
    assert keys[j] in keys;
    assert keys[j] == Label(name);
    var t :| t in txs && KeyOf(t, ProjectColumn) == Label(name);
    assert t.project == Some(name);
  }

  lemma AttributedIsListed(txs: seq<Transaction>, name: string)
    requires Attributed(txs, name)
    ensures exists i :: 0 <= i < |ProjectProfitability(txs)| && ProjectProfitability(txs)[i].name == name
  {
    var keys := GroupKeys(txs, ProjectColumn);
    assert forall k :: k in keys ==> k.Label?;
    var rows := NetRows(txs, keys);
    var r := ProjectProfitability(txs);
    var t :| t in txs && t.project == Some(name);
    assert KeyOf(t, ProjectColumn) == Label(name);
    assert Label(name) in keys;
    var j :| 0 <= j < |keys| && keys[j] == Label(name);
    assert rows[j].name == name;
    assert rows[j] in rows;
    SortDescMember(rows, NetKey, rows[j]);
    assert rows[j] in r;
    var i :| 0 <= i < |r| && r[i] == rows[j];
  }

  /** Each project appears once. */
  lemma ProfitabilityOrder(txs: seq<Transaction>)
    ensures DistinctNames(ProjectProfitability(txs))
  {
    var keys := GroupKeys(txs, ProjectColumn);
    assert forall k :: k in keys ==> k.Label?;
    var rows := NetRows(txs, keys);
    AscendingDistinct(keys);
    assert DistinctNames(rows) by {
      forall i, j | 0 <= i < j < |rows| ensures rows[i].name != rows[j].name {
        assert keys[i] in keys && keys[j] in keys;
        assert keys[i] != keys[j];
      }
    }
    SortKeepsDistinctNames(rows);
  }

  /** With non-negative amounts, a project without Income rows (an
      expense-only project) has a net of at most 0, and so has every project
      listed after it: no project with a positive net comes after it. */
  lemma ExpenseOnlyComesLast(txs: seq<Transaction>, i: nat, j: nat)
    requires NonNegativeAmounts(txs)
    requires i < j < |ProjectProfitability(txs)|
    requires forall t :: t in RowsOf(txs, ProjectProfitability(txs)[i].name) ==> t.kind != Income
    ensures ProjectProfitability(txs)[i].net <= 0
    ensures ProjectProfitability(txs)[j].net <= 0
  {
    var r := ProjectProfitability(txs);
    var rows := RowsOf(txs, r[i].name);
    assert NonNegativeAmounts(rows) by {
      forall n | 0 <= n < |rows| ensures rows[n].amount >= 0 {
        assert rows[n] in rows;
        var m :| 0 <= m < |txs| && txs[m] == rows[n];
      }
    }
    KindTotalAbsent(rows, Income);
    KindTotalNonNegative(rows, Expense);
    assert r[i] in r;
    assert NetKey(r[i]) >= NetKey(r[j]);
  }

  /** No row without a project, and an empty frame, yield no output. */
  lemma UnattributedRowsExcluded(txs: seq<Transaction>)
    requires forall t :: t in txs ==> t.project == None
    ensures ProjectProfitability(txs) == []
  {
    NoProjectNoKeys(txs);
  }

  lemma {:induction false} NoProjectNoKeys(txs: seq<Transaction>)
    requires forall t :: t in txs ==> t.project == None
    ensures GroupKeys(txs, ProjectColumn) == []
  {
    if txs != [] {
      assert txs[0] in txs;
      assert forall t :: t in txs[1..] ==> t in txs;
      NoProjectNoKeys(txs[1..]);
    }
  }

  /** The nets of all projects add up to the income minus the expense of the
      rows that name a project. */
  lemma ProfitabilityNetsAddUp(txs: seq<Transaction>)
    ensures TotalNet(ProjectProfitability(txs))
         == KindTotal(Keyed(txs, ProjectColumn), Income) - KindTotal(Keyed(txs, ProjectColumn), Expense)
  {
    var keys := GroupKeys(txs, ProjectColumn);
    assert forall k :: k in keys ==> k.Label?;
    var rows := NetRows(txs, keys);
    TotalNetPermutation(rows, SortDesc(rows, NetKey));
    NetRowsTotal(txs, keys);
    GroupKeysTotal(txs, ProjectColumn, Income);
    GroupKeysTotal(txs, ProjectColumn, Expense);
  }

  function TotalNet(rows: seq<ProjectNet>): int {
    if rows == [] then 0 else rows[0].net + TotalNet(rows[1..])
  }

  lemma {:induction false} NetRowsTotal(txs: seq<Transaction>, keys: seq<Key>)
    requires forall k :: k in keys ==> k.Label?
    ensures TotalNet(NetRows(txs, keys))
         == GroupTotal(txs, ProjectColumn, keys, Income) - GroupTotal(txs, ProjectColumn, keys, Expense)
  {
    if keys != [] {
      assert forall k :: k in keys[1..] ==> k in keys;
      NetRowsTotal(txs, keys[1..]);
      assert NetRows(txs, keys)[1..] == NetRows(txs, keys[1..]);
      assert Label(keys[0].text) == keys[0];
    }
  }

  lemma {:induction false} TotalNetAppend(a: seq<ProjectNet>, b: seq<ProjectNet>)
    ensures TotalNet(a + b) == TotalNet(a) + TotalNet(b)
  {
    if a == [] {
      assert a + b == b;
    } else {
      assert (a + b)[1..] == a[1..] + b;
      TotalNetAppend(a[1..], b);
    }
  }

  lemma {:induction false} TotalNetPermutation(a: seq<ProjectNet>, b: seq<ProjectNet>)
    requires multiset(a) == multiset(b)
    ensures TotalNet(a) == TotalNet(b)
    decreases |a|
  {
    if a == [] {
      assert |b| == |multiset(b)| == 0;
    } else {
      assert a[0] in multiset(b);
      var j :| 0 <= j < |b| && b[j] == a[0];
      assert b == b[..j] + [b[j]] + b[j + 1..];
      TotalNetAppend(b[..j], b[j + 1..]);
      TotalNetAppend(b[..j] + [b[j]], b[j + 1..]);
      TotalNetAppend(b[..j], [b[j]]);
      MultisetRemove(b, j);
      MultisetTail(a);
      TotalNetPermutation(a[1..], b[..j] + b[j + 1..]);
    }
  }

  /** The worked example: project A earns 100, project B spends 50; A comes
      first with 100 and B last with -50. */
  lemma TwoProjectExample(d: Date)
    ensures ProjectProfitability([
      Transaction(1, d, Income, "c", Some("A"), "", 100),
      Transaction(2, d, Expense, "c", Some("B"), "", 50)])
      == [ProjectNet("A", 100), ProjectNet("B", -50)]
  {
    var t1 := Transaction(1, d, Income, "c", Some("A"), "", 100);
    var t2 := Transaction(2, d, Expense, "c", Some("B"), "", 50);
    var txs := [t1, t2];
    assert txs[1..] == [t2];
    assert [t2][1..] == [];
    assert GroupKeys([t2], ProjectColumn) == [Label("B")];
    assert Order.StringLess("A", "B");
    assert KeyLess(Label("A"), Label("B"));
    assert GroupKeys(txs, ProjectColumn) == InsertKey(Label("A"), [Label("B")]);
    assert GroupKeys(txs, ProjectColumn) == [Label("A"), Label("B")];
    assert Group([t2], ProjectColumn, Label("A")) == [];
    assert RowsOf(txs, "A") == [t1];
    assert Group([t2], ProjectColumn, Label("B")) == [t2];
    assert RowsOf(txs, "B") == [t2];
    var a := ProjectNet("A", 100);
    var b := ProjectNet("B", -50);
    assert [t1][1..] == [];
    assert KindTotal([t1], Income) == Share(t1, Income) + KindTotal([], Income) == 100;
    assert KindTotal([t1], Expense) == Share(t1, Expense) + KindTotal([], Expense) == 0;
    assert KindTotal([t2], Income) == Share(t2, Income) + KindTotal([], Income) == 0;
    assert KindTotal([t2], Expense) == Share(t2, Expense) + KindTotal([], Expense) == 50;
    assert NetOf(txs, "A") == 100 && NetOf(txs, "B") == -50;
    assert NetRows(txs, [Label("A"), Label("B")]) == [a, b];
    assert [a, b][1..] == [b];
    assert SortDesc([b], NetKey) == [b];
    assert SortDesc([a, b], NetKey) == Insert(a, [b], NetKey);
  }
}

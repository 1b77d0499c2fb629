/** 'groupby' on one column of the transactions: the key of each row, the
    sorted list of distinct keys, the rows of one key, and the fact that the
    group totals add up to the total of the grouped rows. */
module Grouping {
  import opened LedgerTypes
  import opened Order
  import opened Sums

  /** The columns the reports group on. */
  datatype Column = MonthColumn | CategoryColumn | ProjectColumn

  /** A group key; Missing is the key of a row whose column is empty, and
      'groupby' leaves such rows out. */
  datatype Key = MonthKey(month: Month) | Label(text: string) | Missing

  function KeyOf(t: Transaction, c: Column): Key {
    match c
    case MonthColumn => MonthKey(MonthOf(t.date))
    case CategoryColumn => Label(t.category)
    case ProjectColumn => if t.project.Some? then Label(t.project.value) else Missing
  }

  function Rank(k: Key): nat {
    match k
    case MonthKey(_) => 0
    case Label(_) => 1
    case Missing => 2
  }

  /** The order in which 'groupby' lists its keys: months by year and month,
      labels by their text. */
  predicate KeyLess(a: Key, b: Key) {
    || Rank(a) < Rank(b)
    || (a.MonthKey? && b.MonthKey? && MonthBefore(a.month, b.month))
    || (a.Label? && b.Label? && StringLess(a.text, b.text))
  }

  lemma KeyLessIrreflexive(a: Key)
    ensures !KeyLess(a, a)
  {
    if a.Label? {
      StringLessIrreflexive(a.text);
    }
  }

  lemma KeyLessTransitive(a: Key, b: Key, c: Key)
    requires KeyLess(a, b) && KeyLess(b, c)
    ensures KeyLess(a, c)
  {
    if a.Label? && b.Label? && c.Label? {
      StringLessTransitive(a.text, b.text, c.text);
    }
  }

  lemma KeyLessTotal(a: Key, b: Key)
    ensures a == b || KeyLess(a, b) || KeyLess(b, a)
  {
    if a.Label? && b.Label? {
      StringLessTotal(a.text, b.text);
    }
  }

  ghost predicate Ascending(ks: seq<Key>) {
    forall i, j :: 0 <= i < j < |ks| ==> KeyLess(ks[i], ks[j])
  }

  ghost predicate Distinct(ks: seq<Key>) {
    forall i, j :: 0 <= i < j < |ks| ==> ks[i] != ks[j]
  }

  lemma AscendingDistinct(ks: seq<Key>)
    requires Ascending(ks)
    ensures Distinct(ks)
  {
    forall i, j | 0 <= i < j < |ks| ensures ks[i] != ks[j] {
      KeyLessIrreflexive(ks[i]);
    }
  }

  /** Adds x to a sorted key list unless it is already there. */
  function InsertKey(x: Key, ks: seq<Key>): (r: seq<Key>)
    ensures forall y :: y in r <==> y == x || y in ks
  {
    if ks == [] then [x]
    else if x == ks[0] then ks
    else if KeyLess(x, ks[0]) then [x] + ks
    else [ks[0]] + InsertKey(x, ks[1..])
  }

  lemma {:induction false} InsertKeyAscending(x: Key, ks: seq<Key>)
    requires Ascending(ks)
    ensures Ascending(InsertKey(x, ks))
  {
    if ks == [] || x == ks[0] {
    } else if KeyLess(x, ks[0]) {
      var r := [x] + ks;
      forall i, j | 0 <= i < j < |r| ensures KeyLess(r[i], r[j]) {
        if i == 0 && j > 1 {
          KeyLessTransitive(x, ks[0], ks[j - 1]);
        }
      }
    } else {
      KeyLessTotal(x, ks[0]);
      var tail := InsertKey(x, ks[1..]);
      InsertKeyAscending(x, ks[1..]);
      var r := [ks[0]] + tail;
      forall j | 0 < j < |r| ensures KeyLess(r[0], r[j]) {
        assert r[j] in tail;
        if r[j] != x {
          var i :| 0 <= i < |ks[1..]| && ks[1..][i] == r[j];
          assert ks[i + 1] == r[j];
        }
      }
      assert InsertKey(x, ks) == r;
    }
  }

  /** The distinct keys of the rows of txs in column c, ascending, without
      Missing. */
  function GroupKeys(txs: seq<Transaction>, c: Column): (r: seq<Key>)
    ensures Ascending(r)
    ensures forall key :: key in r <==> key != Missing && exists t :: t in txs && KeyOf(t, c) == key
  {
    if txs == [] then []
    else
      var rest := GroupKeys(txs[1..], c);
      var k := KeyOf(txs[0], c);
      assert forall t :: t in txs <==> t == txs[0] || t in txs[1..] by {
        assert txs == [txs[0]] + txs[1..];
      }
      if k == Missing then rest
      else
        InsertKeyAscending(k, rest);
        InsertKey(k, rest)
  }

  /** The rows of txs whose key in column c is key, in their order. */
  function Group(txs: seq<Transaction>, c: Column, key: Key): (r: seq<Transaction>)
    ensures forall t :: t in r <==> t in txs && KeyOf(t, c) == key
    ensures forall t :: multiset(r)[t] == if KeyOf(t, c) == key then multiset(txs)[t] else 0
  {
    if txs == [] then []
    else
      assert txs == [txs[0]] + txs[1..];
      assert forall t :: t in txs <==> t == txs[0] || t in txs[1..];
      assert multiset(txs) == multiset{txs[0]} + multiset(txs[1..]);
      if KeyOf(txs[0], c) == key then [txs[0]] + Group(txs[1..], c, key)
      else Group(txs[1..], c, key)
  }

  /** The rows whose key in column c is one of keys. */
  function Covered(txs: seq<Transaction>, c: Column, keys: seq<Key>): seq<Transaction> {
    if txs == [] then []
    else if KeyOf(txs[0], c) in keys then [txs[0]] + Covered(txs[1..], c, keys)
    else Covered(txs[1..], c, keys)
  }

  /** The rows that 'groupby' on column c keeps: those whose key is not Missing. */
  function Keyed(txs: seq<Transaction>, c: Column): seq<Transaction> {
    if txs == [] then []
    else if KeyOf(txs[0], c) != Missing then [txs[0]] + Keyed(txs[1..], c)
    else Keyed(txs[1..], c)
  }

  /** The sum, over the given keys, of the type-k total of each group. */
  function GroupTotal(txs: seq<Transaction>, c: Column, keys: seq<Key>, k: TxKind): int {
    if keys == [] then 0
    else KindTotal(Group(txs, c, keys[0]), k) + GroupTotal(txs, c, keys[1..], k)
  }

  lemma {:induction false} GroupTotalOfNothing(c: Column, keys: seq<Key>, k: TxKind)
    ensures GroupTotal([], c, keys, k) == 0
  {
    if keys != [] {
      GroupTotalOfNothing(c, keys[1..], k);
    }
  }

  /** One more row adds its amount to the group total exactly when its key is
      among the (distinct) keys. */
  lemma {:induction false} GroupTotalCons(t: Transaction, rest: seq<Transaction>, c: Column, keys: seq<Key>, k: TxKind)
    requires Distinct(keys)
    ensures GroupTotal([t] + rest, c, keys, k)
         == (if KeyOf(t, c) in keys then Share(t, k) else 0) + GroupTotal(rest, c, keys, k)
  {
    if keys != [] {
      var txs := [t] + rest;
      assert txs[0] == t && txs[1..] == rest;
      assert Distinct(keys[1..]) by {
        forall i, j | 0 <= i < j < |keys[1..]| ensures keys[1..][i] != keys[1..][j] {
          assert keys[1..][i] == keys[i + 1] && keys[1..][j] == keys[j + 1];
        }
      }
      GroupTotalCons(t, rest, c, keys[1..], k);
      if KeyOf(t, c) == keys[0] {
        assert KeyOf(t, c) !in keys[1..] by {
          forall i | 0 <= i < |keys[1..]| ensures keys[1..][i] != keys[0] {
            assert keys[1..][i] == keys[i + 1];
          }
        }
      } else {
        assert KeyOf(t, c) in keys <==> KeyOf(t, c) in keys[1..] by {
          assert keys == [keys[0]] + keys[1..];
        }
      }
    }
  }

  /** Over distinct keys, the group totals add up to the total of the rows
      those keys cover. */
  lemma {:induction false} GroupTotalIsCoveredTotal(txs: seq<Transaction>, c: Column, keys: seq<Key>, k: TxKind)
    requires Distinct(keys)
    ensures GroupTotal(txs, c, keys, k) == KindTotal(Covered(txs, c, keys), k)
  {
    if txs == [] {
      GroupTotalOfNothing(c, keys, k);
    } else {
      assert txs == [txs[0]] + txs[1..];
      GroupTotalCons(txs[0], txs[1..], c, keys, k);
      GroupTotalIsCoveredTotal(txs[1..], c, keys, k);
    }
  }

  /** Covered only asks, of each row, whether its key is among keys; all the
      rows of txs have their key among keys exactly when it is not Missing. */
  lemma {:induction false} CoveredSameOnRest(txs: seq<Transaction>, c: Column, keys: seq<Key>)
    requires forall t :: t in txs ==> (KeyOf(t, c) in keys <==> KeyOf(t, c) != Missing)
    ensures Covered(txs, c, keys) == Keyed(txs, c)
  {
    if txs != [] {
      assert txs[0] in txs;
      assert forall t :: t in txs[1..] ==> t in txs;
      CoveredSameOnRest(txs[1..], c, keys);
    }
  }

  /** The totals of the groups 'groupby' forms add up to the total of the rows
      it keeps. */
  lemma GroupKeysTotal(txs: seq<Transaction>, c: Column, k: TxKind)
    ensures GroupTotal(txs, c, GroupKeys(txs, c), k) == KindTotal(Keyed(txs, c), k)
  {
    var keys := GroupKeys(txs, c);
    AscendingDistinct(keys);
    GroupTotalIsCoveredTotal(txs, c, keys, k);
    CoveredSameOnRest(txs, c, keys);
  }

  /** Grouping on the month or the category keeps every row. */
  lemma {:induction false} KeyedAll(txs: seq<Transaction>, c: Column)
    requires c != ProjectColumn
    ensures Keyed(txs, c) == txs
  {
    if txs != [] {
      KeyedAll(txs[1..], c);
      assert txs == [txs[0]] + txs[1..];
    }
  }
}

/** Sums of the amount column: over all rows, and over the rows of one type. */
module Sums {
  import opened LedgerTypes
  import Sorting

  /** The amount a row adds to the total of type k. */
  function Share(t: Transaction, k: TxKind): int {
    if t.kind == k then t.amount else 0
  }

  /** Sum of the amounts of the rows whose type is k (a filter on 'type'
      followed by a sum of 'amount'). */
  function KindTotal(txs: seq<Transaction>, k: TxKind): int {
    if txs == [] then 0 else Share(txs[0], k) + KindTotal(txs[1..], k)
  }

  /** Sum of the amount column, whatever the type. */
  function AmountTotal(txs: seq<Transaction>): int {
    if txs == [] then 0 else txs[0].amount + AmountTotal(txs[1..])
  }

  /** The rows whose type is k, in their order. */
  function OfKind(txs: seq<Transaction>, k: TxKind): (r: seq<Transaction>)
    ensures forall t :: t in r <==> t in txs && t.kind == k
    ensures forall t :: multiset(r)[t] == if t.kind == k then multiset(txs)[t] else 0
    ensures |r| <= |txs|
  {
    if txs == [] then []
    else
      assert txs == [txs[0]] + txs[1..];
      assert multiset(txs) == multiset{txs[0]} + multiset(txs[1..]);
      if txs[0].kind == k then [txs[0]] + OfKind(txs[1..], k)
      else OfKind(txs[1..], k)
  }

  /** The type total is the amount sum of the rows filtered by type. */
  lemma {:induction false} KindTotalIsFilteredSum(txs: seq<Transaction>, k: TxKind)
    ensures KindTotal(txs, k) == AmountTotal(OfKind(txs, k))
  {
    if txs != [] {
      KindTotalIsFilteredSum(txs[1..], k);
      if txs[0].kind == k {
        assert ([txs[0]] + OfKind(txs[1..], k))[1..] == OfKind(txs[1..], k);
      }
    }
  }

  predicate NonNegativeAmounts(txs: seq<Transaction>) {
    forall i :: 0 <= i < |txs| ==> txs[i].amount >= 0
  }

  lemma {:induction false} KindTotalAppend(a: seq<Transaction>, b: seq<Transaction>, k: TxKind)
    ensures KindTotal(a + b, k) == KindTotal(a, k) + KindTotal(b, k)
  {
    if a == [] {
      assert a + b == b;
    } else {
      assert (a + b)[1..] == a[1..] + b;
      KindTotalAppend(a[1..], b, k);
    }
  }

  lemma {:induction false} AmountTotalAppend(a: seq<Transaction>, b: seq<Transaction>)
    ensures AmountTotal(a + b) == AmountTotal(a) + AmountTotal(b)
  {
    if a == [] {
      assert a + b == b;
    } else {
      assert (a + b)[1..] == a[1..] + b;
      AmountTotalAppend(a[1..], b);
    }
  }

  /** Taking row j out of a sequence: what it does to the rows and to a type total. */
  lemma RemoveAt(b: seq<Transaction>, j: nat, k: TxKind)
    requires j < |b|
    ensures multiset(b[..j] + b[j + 1..]) == multiset(b) - multiset{b[j]}
    ensures KindTotal(b, k) == Share(b[j], k) + KindTotal(b[..j] + b[j + 1..], k)
  {
    Sorting.MultisetRemove(b, j);
    assert b == b[..j] + [b[j]] + b[j + 1..];
    KindTotalAppend(b[..j], b[j + 1..], k);
    KindTotalAppend(b[..j] + [b[j]], b[j + 1..], k);
    KindTotalAppend(b[..j], [b[j]], k);
  }

  /** The type total does not depend on the order of the rows. */
  lemma {:induction false} KindTotalPermutation(a: seq<Transaction>, b: seq<Transaction>, k: TxKind)
    requires multiset(a) == multiset(b)
    ensures KindTotal(a, k) == KindTotal(b, k)
    decreases |a|
  {
    if a == [] {
      assert |b| == |multiset(b)| == 0;
    } else {
      assert a[0] in multiset(b);
      var j :| 0 <= j < |b| && b[j] == a[0];
      RemoveAt(b, j, k);
      Sorting.MultisetTail(a);
      KindTotalPermutation(a[1..], b[..j] + b[j + 1..], k);
    }
  }

  /** Keeping only the rows of type k does not change the total of type k,
      and leaves nothing for any other type. */
  lemma {:induction false} OfKindTotal(txs: seq<Transaction>, k: TxKind, other: TxKind)
    ensures KindTotal(OfKind(txs, k), k) == KindTotal(txs, k)
    ensures other != k ==> KindTotal(OfKind(txs, k), other) == 0
  {
    if txs != [] {
      OfKindTotal(txs[1..], k, other);
    }
  }

  /** With non-negative amounts every type total is non-negative. */
  lemma {:induction false} KindTotalNonNegative(txs: seq<Transaction>, k: TxKind)
    requires NonNegativeAmounts(txs)
    ensures KindTotal(txs, k) >= 0
  {
    if txs != [] {
      assert NonNegativeAmounts(txs[1..]) by {
        forall i | 0 <= i < |txs[1..]| ensures txs[1..][i].amount >= 0 {
          assert txs[1..][i] == txs[i + 1];
        }
      }
      KindTotalNonNegative(txs[1..], k);
    }
  }

  /** When every row is an Income or an Expense row, the plain amount sum is
      the income total plus the expense total (it is not the net). */
  lemma {:induction false} AmountTotalSplits(txs: seq<Transaction>)
    requires forall i :: 0 <= i < |txs| ==> txs[i].kind == Income || txs[i].kind == Expense
    ensures AmountTotal(txs) == KindTotal(txs, Income) + KindTotal(txs, Expense)
  {
    if txs != [] {
      assert forall i :: 0 <= i < |txs[1..]| ==> txs[1..][i] == txs[i + 1];
      AmountTotalSplits(txs[1..]);
    }
  }

  /** A type no row carries has total 0 (pandas fills the missing cell with 0). */
  lemma {:induction false} KindTotalAbsent(txs: seq<Transaction>, k: TxKind)
    requires forall t :: t in txs ==> t.kind != k
    ensures KindTotal(txs, k) == 0
  {
    if txs != [] {
      assert txs[0] in txs;
      assert forall t :: t in txs[1..] ==> t in txs;
      KindTotalAbsent(txs[1..], k);
    }
  }
}

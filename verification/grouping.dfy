/**
 `groupby(keys)[column].sum()`: the rows are partitioned by the value of one
 or more key columns, each part is reduced to the sum of one numeric column,
 and the groups come out in ascending key order. A group key is the sequence
 of key-column values of a row ([risk_level], or [City, Asset_Class]), compared
 lexicographically as pandas compares strings and tuples of strings.
 */
module Grouping {
  import opened Base

  /** The values of the key columns of one row, in key-column order. */
  type Key = seq<string>

  /** Python's string order: lexicographic on code points, a proper prefix first. */
  predicate StrLess(a: string, b: string) {
    |b| > 0 && (|a| == 0 || a[0] < b[0] || (a[0] == b[0] && StrLess(a[1..], b[1..])))
  }

  lemma {:induction false} StrLessIrreflexive(a: string)
    ensures !StrLess(a, a)
  {
    if |a| > 0 {
      StrLessIrreflexive(a[1..]);
    }
  }

  lemma {:induction false} StrLessTransitive(a: string, b: string, c: string)
    requires StrLess(a, b) && StrLess(b, c)
    ensures StrLess(a, c)
  {
    if |a| > 0 && a[0] == b[0] == c[0] {
      StrLessTransitive(a[1..], b[1..], c[1..]);
    }
  }

  lemma {:induction false} StrLessTotal(a: string, b: string)
    ensures a == b || StrLess(a, b) || StrLess(b, a)
  {
    if |a| > 0 && |b| > 0 && a[0] == b[0] {
      StrLessTotal(a[1..], b[1..]);
      if a[1..] == b[1..] {
        assert a == [a[0]] + a[1..] && b == [b[0]] + b[1..];
      }
    }
  }

  /** Tuple order: compare the first key column, then the next on a tie. */
  predicate KeyLess(a: Key, b: Key) {
    |b| > 0 && (|a| == 0 || StrLess(a[0], b[0]) || (a[0] == b[0] && KeyLess(a[1..], b[1..])))
  }

  lemma {:induction false} KeyLessIrreflexive(a: Key)
    ensures !KeyLess(a, a)
  {
    if |a| > 0 {
      StrLessIrreflexive(a[0]);
      KeyLessIrreflexive(a[1..]);
    }
  }

  lemma {:induction false} KeyLessTransitive(a: Key, b: Key, c: Key)
    requires KeyLess(a, b) && KeyLess(b, c)
    ensures KeyLess(a, c)
  {
    if |a| > 0 {
      StrLessIrreflexive(b[0]);
      if a[0] == b[0] && b[0] == c[0] {
        KeyLessTransitive(a[1..], b[1..], c[1..]);
      } else if StrLess(a[0], b[0]) && StrLess(b[0], c[0]) {
        StrLessTransitive(a[0], b[0], c[0]);
      }
    }
  }

  lemma {:induction false} KeyLessTotal(a: Key, b: Key)
    ensures a == b || KeyLess(a, b) || KeyLess(b, a)
  {
    if |a| > 0 && |b| > 0 {
      StrLessTotal(a[0], b[0]);
      if a[0] == b[0] {
        KeyLessTotal(a[1..], b[1..]);
        if a[1..] == b[1..] {
          assert a == [a[0]] + a[1..] && b == [b[0]] + b[1..];
        }
      }
    }
  }

  /** One row reduced to its group key and the value being summed. */
  datatype Entry = Entry(key: Key, amount: real)

  function AmountOf(e: Entry): real {
    e.amount
  }

  /** Sum of the summed column over all rows. */
  function Total(es: seq<Entry>): real {
    SumOf(es, AmountOf)
  }

  /** Sum of the summed column over the rows whose key is `k` (the reference for a group's sum). */
  function KeySum(es: seq<Entry>, k: Key): real {
    if |es| == 0 then 0.0
    else (if es[0].key == k then es[0].amount else 0.0) + KeySum(es[1..], k)
  }

  /** The distinct keys occurring in the rows. */
  function Keys(es: seq<Entry>): set<Key> {
    if |es| == 0 then {} else {es[0].key} + Keys(es[1..])
  }

  lemma {:induction false} InKeys(es: seq<Entry>, k: Key)
    ensures k in Keys(es) <==> exists i :: 0 <= i < |es| && es[i].key == k
    decreases |es|
  {
    if |es| > 0 {
      InKeys(es[1..], k);
      assert forall i :: 1 <= i < |es| ==> es[i] == es[1..][i - 1];
    }
  }

  /** Groups in strictly ascending key order, so no key occurs twice. */
  predicate Ascending(g: seq<Entry>) {
    forall i, j :: 0 <= i < j < |g| ==> KeyLess(g[i].key, g[j].key)
  }

  lemma {:induction false} KeySumAbsent(es: seq<Entry>, k: Key)
    requires k !in Keys(es)
    ensures KeySum(es, k) == 0.0
    decreases |es|
  {
    if |es| > 0 {
      KeySumAbsent(es[1..], k);
    }
  }

  /** In an ascending group list, the sum recorded for a key is that key's only entry. */
  lemma {:induction false} KeySumOfGroup(g: seq<Entry>, i: nat)
    requires Ascending(g) && i < |g|
    ensures KeySum(g, g[i].key) == g[i].amount
    decreases |g|
  {
    var k := g[i].key;
    if i == 0 {
      assert k !in Keys(g[1..]) by {
        InKeys(g[1..], k);
        if k in Keys(g[1..]) {
          var j :| 0 <= j < |g[1..]| && g[1..][j].key == k;
          assert KeyLess(g[0].key, g[j + 1].key);
          KeyLessIrreflexive(k);
        }
      }
      KeySumAbsent(g[1..], k);
    } else {
      assert KeyLess(g[0].key, k);
      KeyLessIrreflexive(k);
      assert forall a, b :: 0 <= a < b < |g[1..]| ==> g[1..][a] == g[a + 1] && g[1..][b] == g[b + 1];
      KeySumOfGroup(g[1..], i - 1);
    }
  }

  /** Adds `v` to the group of `k`, creating the group in its sorted place when it is new. */
  function AddTo(g: seq<Entry>, k: Key, v: real): (r: seq<Entry>)
    requires Ascending(g)
    ensures Ascending(r)
    ensures Keys(r) == Keys(g) + {k}
    ensures forall k' :: KeySum(r, k') == KeySum(g, k') + (if k' == k then v else 0.0)
    ensures Total(r) == Total(g) + v
  {
    if |g| == 0 then [Entry(k, v)]
    else
      if g[0].key == k then [Entry(k, g[0].amount + v)] + g[1..]
      else if KeyLess(k, g[0].key) then
        NewSmallest(g, k, v);
        [Entry(k, v)] + g
      else
        KeyLessTotal(k, g[0].key);
        var rest := AddTo(g[1..], k, v);
        HeadStaysSmallest(g, k, rest);
        [g[0]] + rest
  }

  lemma NewSmallest(g: seq<Entry>, k: Key, v: real)
    requires Ascending(g) && |g| > 0 && KeyLess(k, g[0].key)
    ensures Ascending([Entry(k, v)] + g)
  {
    var r := [Entry(k, v)] + g;
    forall i, j | 0 <= i < j < |r| ensures KeyLess(r[i].key, r[j].key) {
      if i == 0 && j > 1 {
        KeyLessTransitive(k, g[0].key, g[j - 1].key);
      } else if i > 0 {
        assert r[i] == g[i - 1] && r[j] == g[j - 1];
      }
    }
  }

  lemma HeadStaysSmallest(g: seq<Entry>, k: Key, rest: seq<Entry>)
    requires Ascending(g) && |g| > 0 && KeyLess(g[0].key, k)
    requires Ascending(rest) && Keys(rest) == Keys(g[1..]) + {k}
    ensures Ascending([g[0]] + rest)
  {
    var r := [g[0]] + rest;
    forall i, j | 0 <= i < j < |r| ensures KeyLess(r[i].key, r[j].key) {
      if i == 0 {
        InKeys(rest, r[j].key);
        assert rest[j - 1] == r[j];
        if r[j].key != k {
          InKeys(g[1..], r[j].key);
          var m :| 0 <= m < |g[1..]| && g[1..][m].key == r[j].key;
          assert g[m + 1] == g[1..][m];
        }
      } else {
        assert r[i] == rest[i - 1] && r[j] == rest[j - 1];
      }
    }
  }

  /**
   `groupby(key)[column].sum()`: one group per distinct key, in ascending key
   order, each holding the sum over the rows with that key; the group sums
   add up to the sum over all rows.
   */
  function GroupSum(es: seq<Entry>): (g: seq<Entry>)
    ensures Ascending(g)
    ensures Keys(g) == Keys(es)
    ensures forall k :: KeySum(g, k) == KeySum(es, k)
    ensures forall i :: 0 <= i < |g| ==> g[i].amount == KeySum(es, g[i].key)
    ensures Total(g) == Total(es)
  {
    if |es| == 0 then []
    else
      var g := AddTo(GroupSum(es[1..]), es[0].key, es[0].amount);
      assert forall i :: 0 <= i < |g| ==> g[i].amount == KeySum(g, g[i].key) by {
        forall i | 0 <= i < |g| ensures g[i].amount == KeySum(g, g[i].key) {
          KeySumOfGroup(g, i);
        }
      }
      g
  }

  /** No two groups share a key. */
  lemma GroupKeysDistinct(g: seq<Entry>)
    requires Ascending(g)
    ensures forall i, j :: 0 <= i < |g| && 0 <= j < |g| && g[i].key == g[j].key ==> i == j
  {
    forall i, j | 0 <= i < |g| && 0 <= j < |g| && g[i].key == g[j].key ensures i == j {
      KeyLessIrreflexive(g[i].key);
    }
  }
}

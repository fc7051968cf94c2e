/**
 The table operations the scripts call, each stated once over a sequence of
 rows: a boolean-mask filter, a row-wise column rewrite, `drop_duplicates`
 (keep first), a descending sort on one numeric column, and `nlargest`.
 */
module FrameOps {
  import opened Base

  // ---------------------------------------------------------------------------
  // Boolean-mask selection: df[mask], dropna(subset=...)
  // ---------------------------------------------------------------------------

  /** The rows satisfying `keep`, in their original order. */
  function Filter<T(==)>(xs: seq<T>, keep: T -> bool): (r: seq<T>)
    ensures IsSubseq(r, xs)
    ensures forall x :: x in r ==> keep(x)
    ensures forall i :: 0 <= i < |xs| && keep(xs[i]) ==> xs[i] in r
    ensures |r| == Count(xs, keep)
  {
    if |xs| == 0 then []
    else
      var rest := Filter(xs[1..], keep);
      assert forall i :: 1 <= i < |xs| ==> xs[i] == xs[1..][i - 1];
      if keep(xs[0]) then [xs[0]] + rest else rest
  }

  /** Selecting from a concatenation selects from each part. */
  lemma {:induction false} FilterConcat<T>(a: seq<T>, b: seq<T>, keep: T -> bool)
    ensures Filter(a + b, keep) == Filter(a, keep) + Filter(b, keep)
    decreases |a|
  {
    if |a| > 0 {
      assert (a + b)[1..] == a[1..] + b;
      FilterConcat(a[1..], b, keep);
    } else {
      assert a + b == b;
    }
  }

  /** A mask that keeps every row selects the whole table. */
  lemma {:induction false} FilterKeepsAll<T>(xs: seq<T>, keep: T -> bool)
    requires forall i :: 0 <= i < |xs| ==> keep(xs[i])
    ensures Filter(xs, keep) == xs
    decreases |xs|
  {
    if |xs| > 0 {
      FilterKeepsAll(xs[1..], keep);
      assert xs == [xs[0]] + xs[1..];
    }
  }

  // ---------------------------------------------------------------------------
  // Row-wise column assignment: df[c] = df[c].apply(...)
  // ---------------------------------------------------------------------------

  /** Rewrites every row with `f`, keeping the number and the order of rows. */
  function MapRows<T, U>(xs: seq<T>, f: T -> U): (r: seq<U>)
    ensures |r| == |xs|
    ensures forall i :: 0 <= i < |xs| ==> r[i] == f(xs[i])
  {
    if |xs| == 0 then []
    else
      var rest := MapRows(xs[1..], f);
      assert forall i :: 1 <= i < |xs| ==> xs[i] == xs[1..][i - 1];
      [f(xs[0])] + rest
  }

  /** Two rewrites in a row are one rewrite by their composition. */
  lemma {:induction false} MapRowsTwice<T, U, V>(xs: seq<T>, f: T -> U, g: U -> V, h: T -> V)
    requires forall x :: h(x) == g(f(x))
    ensures MapRows(MapRows(xs, f), g) == MapRows(xs, h)
    decreases |xs|
  {
    if |xs| > 0 {
      MapRowsTwice(xs[1..], f, g, h);
    }
  }

  /**
   Selecting rewritten rows by `p` is rewriting the rows whose rewrite
   satisfies `p`: a mask can be moved in front of a column assignment.
   */
  lemma {:induction false} FilterMapRows<T, U>(xs: seq<T>, f: T -> U, p: U -> bool, q: T -> bool)
    requires forall x :: q(x) == p(f(x))
    ensures Filter(MapRows(xs, f), p) == MapRows(Filter(xs, q), f)
    decreases |xs|
  {
    if |xs| > 0 {
      FilterMapRows(xs[1..], f, p, q);
      assert MapRows(xs, f)[1..] == MapRows(xs[1..], f);
    }
  }

  /** The rewritten selection holds exactly the rewrites of the selected rows. */
  lemma MapFilterMembers<T, U>(xs: seq<T>, p: T -> bool, f: T -> U)
    ensures forall y :: y in MapRows(Filter(xs, p), f) ==> exists x :: x in xs && p(x) && y == f(x)
    ensures forall i :: 0 <= i < |xs| && p(xs[i]) ==> f(xs[i]) in MapRows(Filter(xs, p), f)
  {
    var kept := Filter(xs, p);
    var r := MapRows(kept, f);
    SubseqMembers(kept, xs);
    forall y | y in r ensures exists x :: x in xs && p(x) && y == f(x) {
      var k :| 0 <= k < |r| && r[k] == y;
      assert kept[k] in kept;
    }
    forall i | 0 <= i < |xs| && p(xs[i]) ensures f(xs[i]) in r {
      var k :| 0 <= k < |kept| && kept[k] == xs[i];
      assert r[k] == f(xs[i]);
    }
  }

  // ---------------------------------------------------------------------------
  // drop_duplicates(): keep the first occurrence of every row
  // ---------------------------------------------------------------------------

  /** Position of the first occurrence of `x`. */
  function FirstIndex<T(==)>(xs: seq<T>, x: T): (i: nat)
    requires x in xs
    ensures i < |xs| && xs[i] == x
    ensures x !in xs[..i]
  {
    if xs[0] == x then 0
    else
      assert x in xs[1..];
      var j := FirstIndex(xs[1..], x);
      assert xs[..j + 1] == [xs[0]] + xs[1..][..j];
      j + 1
  }

  /** Rows of `xs` not in `seen`, each taken at its first occurrence. */
  function DropDuplicatesFrom<T(==)>(xs: seq<T>, seen: set<T>): (r: seq<T>)
    ensures forall x :: x in r ==> x in xs && x !in seen
    ensures forall i :: 0 <= i < |xs| && xs[i] !in seen ==> xs[i] in r
  {
    if |xs| == 0 then []
    else
      assert forall i :: 1 <= i < |xs| ==> xs[i] == xs[1..][i - 1];
      assert forall x :: x in xs[1..] ==> x in xs;
      if xs[0] in seen then
        DropDuplicatesFrom(xs[1..], seen)
      else
        [xs[0]] + DropDuplicatesFrom(xs[1..], seen + {xs[0]})
  }

  /** The kept rows are a sub-sequence of the input with no row twice. */
  lemma {:induction false} DropDuplicatesFromShape<T>(xs: seq<T>, seen: set<T>)
    ensures IsSubseq(DropDuplicatesFrom(xs, seen), xs)
    ensures Distinct(DropDuplicatesFrom(xs, seen))
    decreases |xs|
  {
    if |xs| > 0 {
      if xs[0] in seen {
        DropDuplicatesFromShape(xs[1..], seen);
        var rest := DropDuplicatesFrom(xs[1..], seen);
        assert DropDuplicatesFrom(xs, seen) == rest;
        assert IsSubseq(rest, xs) by {
          SubseqSkip(rest, xs);
        }
      } else {
        DropDuplicatesFromShape(xs[1..], seen + {xs[0]});
        var rest := DropDuplicatesFrom(xs[1..], seen + {xs[0]});
        var r := [xs[0]] + rest;
        assert DropDuplicatesFrom(xs, seen) == r;
        assert r[1..] == rest;
        forall i, j | 0 <= i < j < |r| ensures r[i] != r[j] {
          assert r[j] == rest[j - 1] && r[j] in rest;
          if i > 0 {
            assert r[i] == rest[i - 1];
          }
        }
      }
    }
  }

  /** A sub-sequence of the tail is a sub-sequence of the whole. */
  lemma SubseqSkip<T>(a: seq<T>, b: seq<T>)
    requires |b| > 0 && IsSubseq(a, b[1..])
    ensures IsSubseq(a, b)
  {
  }

  /** Rows in the order of their first occurrences in `xs`. */
  predicate FirstOccurrenceOrder<T(==)>(r: seq<T>, xs: seq<T>)
    requires forall x :: x in r ==> x in xs
  {
    forall i, j :: 0 <= i < j < |r| ==> FirstIndex(xs, r[i]) < FirstIndex(xs, r[j])
  }

  /** Past the first row, first occurrences shift by one. */
  lemma FirstIndexTail<T>(xs: seq<T>, x: T)
    requires |xs| > 0 && x in xs[1..] && x != xs[0]
    ensures FirstIndex(xs, x) == 1 + FirstIndex(xs[1..], x)
  {
  }

  /** A row kept from the tail, past an already seen first row, has its first occurrence shifted by one. */
  lemma KeptFromTail<T>(xs: seq<T>, seen: set<T>, k: nat)
    requires |xs| > 0 && xs[0] in seen && k < |DropDuplicatesFrom(xs[1..], seen)|
    ensures DropDuplicatesFrom(xs[1..], seen)[k] in xs &&
            FirstIndex(xs, DropDuplicatesFrom(xs[1..], seen)[k]) == 1 + FirstIndex(xs[1..], DropDuplicatesFrom(xs[1..], seen)[k])
  {
    var x := DropDuplicatesFrom(xs[1..], seen)[k];
    assert x in DropDuplicatesFrom(xs[1..], seen);
    var m :| 0 <= m < |xs[1..]| && xs[1..][m] == x;
    assert xs[m + 1] == x;
    FirstIndexTail(xs, x);
  }

  /** A first row already seen is skipped, and the order of the rest carries over. */
  lemma FirstOrderSkip<T>(xs: seq<T>, seen: set<T>)
    requires |xs| > 0 && xs[0] in seen
    requires FirstOccurrenceOrder(DropDuplicatesFrom(xs[1..], seen), xs[1..])
    ensures FirstOccurrenceOrder(DropDuplicatesFrom(xs, seen), xs)
  {
    var rest := DropDuplicatesFrom(xs[1..], seen);
    assert DropDuplicatesFrom(xs, seen) == rest;
    forall i, j | 0 <= i < j < |rest| ensures FirstIndex(xs, rest[i]) < FirstIndex(xs, rest[j]) {
      KeptFromTail(xs, seen, i);
      KeptFromTail(xs, seen, j);
      assert FirstIndex(xs[1..], rest[i]) < FirstIndex(xs[1..], rest[j]);
    }
  }

  /** A new first row is kept in front, before every row kept from the rest. */
  lemma FirstOrderKeep<T>(xs: seq<T>, seen: set<T>)
    requires |xs| > 0 && xs[0] !in seen
    requires FirstOccurrenceOrder(DropDuplicatesFrom(xs[1..], seen + {xs[0]}), xs[1..])
    ensures FirstOccurrenceOrder(DropDuplicatesFrom(xs, seen), xs)
  {
    var seen' := seen + {xs[0]};
    var rest := DropDuplicatesFrom(xs[1..], seen');
    var r := [xs[0]] + rest;
    assert DropDuplicatesFrom(xs, seen) == r;
    forall i, j | 0 <= i < j < |r| ensures FirstIndex(xs, r[i]) < FirstIndex(xs, r[j]) {
      assert r[j] == rest[j - 1];
      KeptFromTail(xs, seen', j - 1);
      if i == 0 {
        assert r[0] == xs[0] && FirstIndex(xs, xs[0]) == 0;
      } else {
        assert r[i] == rest[i - 1];
        KeptFromTail(xs, seen', i - 1);
        assert FirstIndex(xs[1..], rest[i - 1]) < FirstIndex(xs[1..], rest[j - 1]);
      }
    }
  }

  /** The kept rows come in the order of their first occurrences. */
  lemma {:induction false} DropDuplicatesFromFirstOrder<T>(xs: seq<T>, seen: set<T>)
    ensures FirstOccurrenceOrder(DropDuplicatesFrom(xs, seen), xs)
    decreases |xs|
  {
    if |xs| > 0 {
      if xs[0] in seen {
        DropDuplicatesFromFirstOrder(xs[1..], seen);
        FirstOrderSkip(xs, seen);
      } else {
        DropDuplicatesFromFirstOrder(xs[1..], seen + {xs[0]});
        FirstOrderKeep(xs, seen);
      }
    }
  }

  /** `df.drop_duplicates()`: the first occurrence of every distinct row, in input order. */
  function DropDuplicates<T(==)>(xs: seq<T>): (r: seq<T>)
    ensures IsSubseq(r, xs)
    ensures Distinct(r)
    ensures forall x :: x in r ==> x in xs
    ensures forall i :: 0 <= i < |xs| ==> xs[i] in r
  {
    DropDuplicatesFromShape(xs, {});
    DropDuplicatesFrom(xs, {})
  }

  /** `drop_duplicates` keeps the first occurrence of each row: the kept rows are in first-occurrence order. */
  lemma DropDuplicatesKeepsFirst<T>(xs: seq<T>)
    ensures FirstOccurrenceOrder(DropDuplicates(xs), xs)
  {
    DropDuplicatesFromFirstOrder(xs, {});
  }

  /**
   De-duplicating, selecting and rewriting: the result holds the rewrite of
   every selected input row and nothing else.
   */
  lemma DedupMapFilterMembers<T, U>(xs: seq<T>, p: T -> bool, f: T -> U)
    ensures forall y :: y in MapRows(Filter(DropDuplicates(xs), p), f) ==> exists x :: x in xs && p(x) && y == f(x)
    ensures forall i :: 0 <= i < |xs| && p(xs[i]) ==> f(xs[i]) in MapRows(Filter(DropDuplicates(xs), p), f)
  {
    var d := DropDuplicates(xs);
    var r := MapRows(Filter(d, p), f);
    MapFilterMembers(d, p, f);
    forall y | y in r ensures exists x :: x in xs && p(x) && y == f(x) {
      var x :| x in d && p(x) && y == f(x);
    }
    forall i | 0 <= i < |xs| && p(xs[i]) ensures f(xs[i]) in r {
      var j :| 0 <= j < |d| && d[j] == xs[i];
    }
  }

  lemma {:induction false} DropDuplicatesFromDistinct<T>(xs: seq<T>, seen: set<T>)
    requires Distinct(xs)
    requires forall x :: x in xs ==> x !in seen
    ensures DropDuplicatesFrom(xs, seen) == xs
    decreases |xs|
  {
    if |xs| > 0 {
      var tail := xs[1..];
      assert Distinct(tail) by {
        forall i, j | 0 <= i < j < |tail| ensures tail[i] != tail[j] {
          assert tail[i] == xs[i + 1] && tail[j] == xs[j + 1];
        }
      }
      assert forall x :: x in tail ==> x !in seen + {xs[0]} by {
        forall x | x in tail ensures x !in seen + {xs[0]} {
          var k :| 0 <= k < |tail| && tail[k] == x;
          assert xs[k + 1] == x;
        }
      }
      DropDuplicatesFromDistinct(tail, seen + {xs[0]});
      assert xs == [xs[0]] + tail;
    }
  }

  /** Applying `drop_duplicates` twice is the same as applying it once. */
  lemma DropDuplicatesIdempotent<T>(xs: seq<T>)
    ensures DropDuplicates(DropDuplicates(xs)) == DropDuplicates(xs)
  {
    DropDuplicatesFromDistinct(DropDuplicates(xs), {});
  }

  /** One step of de-duplication: the first row is kept unless already seen. */
  lemma DropDuplicatesFromStep<T>(xs: seq<T>, seen: set<T>)
    requires |xs| > 0
    ensures DropDuplicatesFrom(xs, seen) ==
            if xs[0] in seen then DropDuplicatesFrom(xs[1..], seen)
            else [xs[0]] + DropDuplicatesFrom(xs[1..], seen + {xs[0]})
  {
  }

  /** The rows of a non-empty sequence: its first row and the rows of its tail. */
  lemma RowSetStep<T>(a: seq<T>)
    requires |a| > 0
    ensures (set x | x in a) == {a[0]} + (set x | x in a[1..])
  {
    assert forall x :: x in a <==> x == a[0] || x in a[1..];
  }

  /** The concatenation property, one row further along the first part. */
  lemma ConcatStep<T>(a: seq<T>, b: seq<T>, seen: set<T>, seen': set<T>)
    requires |a| > 0 && seen' == if a[0] in seen then seen else seen + {a[0]}
    requires DropDuplicatesFrom(a[1..] + b, seen') ==
             DropDuplicatesFrom(a[1..], seen') + DropDuplicatesFrom(b, seen' + (set x | x in a[1..]))
    ensures DropDuplicatesFrom(a + b, seen) ==
            DropDuplicatesFrom(a, seen) + DropDuplicatesFrom(b, seen + (set x | x in a))
  {
    var x := DropDuplicatesFrom(a[1..], seen');
    var y := DropDuplicatesFrom(b, seen' + (set x | x in a[1..]));
    ConcatTail(a, b);
    assert seen' + (set x | x in a[1..]) == seen + (set x | x in a) by {
      RowSetStep(a);
    }
    DropDuplicatesFromStep(a + b, seen);
    DropDuplicatesFromStep(a, seen);
    if a[0] !in seen {
      ConsAssoc(a[0], x, y);
    }
  }

  lemma ConcatTail<T>(a: seq<T>, b: seq<T>)
    requires |a| > 0
    ensures (a + b)[0] == a[0] && (a + b)[1..] == a[1..] + b
  {
  }

  lemma ConsAssoc<T>(h: T, x: seq<T>, y: seq<T>)
    ensures [h] + (x + y) == ([h] + x) + y
  {
  }

  /** De-duplicating a concatenation: the second part is de-duplicated against the first. */
  lemma {:induction false} DropDuplicatesFromConcat<T>(a: seq<T>, b: seq<T>, seen: set<T>)
    ensures DropDuplicatesFrom(a + b, seen) ==
            DropDuplicatesFrom(a, seen) + DropDuplicatesFrom(b, seen + (set x | x in a))
    decreases |a|
  {
    if |a| == 0 {
      assert a + b == b;
      assert seen + (set x | x in a) == seen;
    } else {
      var seen' := if a[0] in seen then seen else seen + {a[0]};
      DropDuplicatesFromConcat(a[1..], b, seen');
      ConcatStep(a, b, seen, seen');
    }
  }

  /**
   A table of distinct rows with one repeated row inserted loses exactly
   that repeat.
   */
  lemma DropDuplicatesOneRepeat<T>(p: seq<T>, x: T, q: seq<T>)
    requires Distinct(p) && Distinct(q) && x in p
    requires forall y :: y in q ==> y !in p
    ensures DropDuplicates(p + [x] + q) == p + q
  {
    var ps := set y | y in p;
    var pxs := set y | y in p + [x];
    assert {} + ps == ps;
    assert {} + pxs == ps by {
      assert forall y :: y in p + [x] <==> y in p || y == x;
    }
    assert DropDuplicatesFrom(p, {}) == p by {
      DropDuplicatesFromDistinct(p, {});
    }
    assert DropDuplicatesFrom([x], ps) == [];
    assert DropDuplicatesFrom(p + [x], {}) == p by {
      DropDuplicatesFromConcat(p, [x], {});
    }
    assert DropDuplicatesFrom(q, ps) == q by {
      DropDuplicatesFromDistinct(q, ps);
    }
    DropDuplicatesFromConcat(p + [x], q, {});
  }

  // ---------------------------------------------------------------------------
  // sort_values(ascending=False) on one numeric column
  // ---------------------------------------------------------------------------

  /** Rows in non-increasing order of `key`. */
  predicate NonIncreasing<T>(xs: seq<T>, key: T -> real) {
    forall i, j :: 0 <= i < j < |xs| ==> key(xs[j]) <= key(xs[i])
  }

  /** Places `x` before the first row whose key is not larger than its own. */
  function Insert<T(==)>(x: T, s: seq<T>, key: T -> real): (r: seq<T>)
    requires NonIncreasing(s, key)
    ensures NonIncreasing(r, key)
    ensures multiset(r) == multiset(s) + multiset{x}
  {
    if |s| == 0 then [x]
    else if key(s[0]) <= key(x) then [x] + s
    else
      var rest := Insert(x, s[1..], key);
      InsertBelow(x, s, key, rest);
      assert s == [s[0]] + s[1..];
      [s[0]] + rest
  }

  /** Every row of a reordering of `s[1..]` plus a smaller `x` sorts below `s[0]`. */
  lemma InsertBelow<T>(x: T, s: seq<T>, key: T -> real, rest: seq<T>)
    requires |s| > 0 && NonIncreasing(s, key) && key(x) < key(s[0])
    requires NonIncreasing(rest, key)
    requires multiset(rest) == multiset(s[1..]) + multiset{x}
    ensures NonIncreasing([s[0]] + rest, key)
  {
    var r := [s[0]] + rest;
    forall i, j | 0 <= i < j < |r| ensures key(r[j]) <= key(r[i]) {
      if i == 0 {
        var y := rest[j - 1];
        assert y in multiset(rest);
        if y != x {
          assert y in multiset(s[1..]);
          var k :| 0 <= k < |s[1..]| && s[1..][k] == y;
          assert s[k + 1] == y;
        }
      } else {
        assert r[i] == rest[i - 1] && r[j] == rest[j - 1];
      }
    }
  }

  /** Stable descending sort on `key` (insertion sort; earlier rows win ties). */
  function SortDesc<T(==)>(xs: seq<T>, key: T -> real): (r: seq<T>)
    ensures NonIncreasing(r, key)
    ensures multiset(r) == multiset(xs)
  {
    if |xs| == 0 then []
    else
      assert xs == [xs[0]] + xs[1..];
      Insert(xs[0], SortDesc(xs[1..], key), key)
  }

  lemma {:induction false} InsertSumOf<T>(x: T, s: seq<T>, key: T -> real, f: T -> real)
    requires NonIncreasing(s, key)
    ensures SumOf(Insert(x, s, key), f) == f(x) + SumOf(s, f)
    decreases |s|
  {
    if |s| > 0 && key(x) < key(s[0]) {
      InsertSumOf(x, s[1..], key, f);
    }
  }

  /** Sorting does not change the sum of any column. */
  lemma {:induction false} SortDescSumOf<T>(xs: seq<T>, key: T -> real, f: T -> real)
    ensures SumOf(SortDesc(xs, key), f) == SumOf(xs, f)
    decreases |xs|
  {
    if |xs| > 0 {
      SortDescSumOf(xs[1..], key, f);
      InsertSumOf(xs[0], SortDesc(xs[1..], key), key, f);
    }
  }

  // ---------------------------------------------------------------------------
  // nlargest(n, column): rows with a value largest first, then rows without one
  // ---------------------------------------------------------------------------

  function HasValue<T>(key: T -> Option<real>): T -> bool {
    x => key(x).Some?
  }

  lemma HasValueAt<T>(key: T -> Option<real>, x: T)
    requires key(x).Some?
    ensures HasValue(key)(x)
  {
  }

  function IsMissing<T>(key: T -> Option<real>): T -> bool {
    x => key(x).None?
  }

  function ValueOrZero<T>(key: T -> Option<real>): T -> real {
    x => key(x).GetOr(0.0)
  }

  lemma ValueOrZeroAt<T>(key: T -> Option<real>, x: T)
    ensures ValueOrZero(key)(x) == key(x).GetOr(0.0)
  {
  }

  /**
   What `nlargest(n)` returns on a column that may hold missing values:
   min(n, |xs|) rows of the table. The rows with a value come first, largest
   first, and no row with a value that is left out is larger than one
   listed. The remaining places go to rows whose value is missing, in table
   order.
   */
  predicate LargestFirst<T(==)>(xs: seq<T>, n: nat, key: T -> Option<real>, r: seq<T>) {
    ListsLargestFirst(xs, n, key, r, Filter(xs, HasValue(key)), Filter(xs, IsMissing(key)))
  }

  /** `LargestFirst`, given the rows with a value (`present`) and those without (`missing`). */
  predicate ListsLargestFirst<T(==)>(xs: seq<T>, n: nat, key: T -> Option<real>, r: seq<T>,
                                     present: seq<T>, missing: seq<T>) {
    var p := |present|;
    && |r| == Min(n, |xs|)
    && multiset(r) <= multiset(xs)
    && (forall i :: 0 <= i < |r| ==> (key(r[i]).Some? <==> i < p))
    && (forall i, j :: 0 <= i < j < |r| && key(r[j]).Some? ==>
          key(r[i]).Some? && key(r[j]).value <= key(r[i]).value)
    && (forall x, y :: x in multiset(present) - multiset(r) && y in r ==>
          key(x).Some? && key(y).Some? && key(x).value <= key(y).value)
    && (p <= |r| ==> |r| - p <= |missing| && r[p..] == missing[..|r| - p])
  }

  /**
   `df.nlargest(n, column)`: the rows with a value sorted largest first,
   followed by the rows without one in table order, cut after `n` rows.
   */
  function NLargest<T(==)>(xs: seq<T>, n: nat, key: T -> Option<real>): (r: seq<T>)
    ensures LargestFirst(xs, n, key, r)
  {
    var s := SortDesc(Filter(xs, HasValue(key)), ValueOrZero(key));
    var missing := Filter(xs, IsMissing(key));
    NLargestSplit(xs, n, key, s, missing);
    (s + missing)[..Min(n, |xs|)]
  }

  /** When no row has a value, `nlargest` lists the first `n` rows of the table unchanged. */
  lemma NLargestAllMissing<T>(xs: seq<T>, n: nat, key: T -> Option<real>)
    requires forall i :: 0 <= i < |xs| ==> key(xs[i]).None?
    ensures NLargest(xs, n, key) == xs[..Min(n, |xs|)]
  {
    forall i | 0 <= i < |xs| ensures IsMissing(key)(xs[i]) && !HasValue(key)(xs[i]) {
    }
    FilterKeepsAll(xs, IsMissing(key));
    CountNone(xs, HasValue(key));
  }

  lemma {:induction false} CountNone<T>(xs: seq<T>, p: T -> bool)
    requires forall i :: 0 <= i < |xs| ==> !p(xs[i])
    ensures Count(xs, p) == 0
    decreases |xs|
  {
    if |xs| > 0 {
      CountNone(xs[1..], p);
    }
  }

  /** Every row has a value or has none: the two selections together hold the table. */
  lemma {:induction false} PresentMissingSplit<T>(xs: seq<T>, key: T -> Option<real>)
    ensures multiset(Filter(xs, HasValue(key))) + multiset(Filter(xs, IsMissing(key))) == multiset(xs)
    decreases |xs|
  {
    if |xs| > 0 {
      PresentMissingSplit(xs[1..], key);
      PresentMissingStep(xs, key);
      assert multiset(xs) == multiset{xs[0]} + multiset(xs[1..]) by {
        assert xs == [xs[0]] + xs[1..];
      }
    }
  }

  lemma PresentMissingStep<T>(xs: seq<T>, key: T -> Option<real>)
    requires |xs| > 0
    ensures multiset(Filter(xs, HasValue(key))) + multiset(Filter(xs, IsMissing(key))) ==
            multiset{xs[0]} + multiset(Filter(xs[1..], HasValue(key))) + multiset(Filter(xs[1..], IsMissing(key)))
  {
    var a := Filter(xs[1..], HasValue(key));
    var b := Filter(xs[1..], IsMissing(key));
    if key(xs[0]).Some? {
      assert HasValue(key)(xs[0]) && !IsMissing(key)(xs[0]);
      assert Filter(xs, HasValue(key)) == [xs[0]] + a;
      assert Filter(xs, IsMissing(key)) == b;
      assert multiset([xs[0]] + a) == multiset{xs[0]} + multiset(a);
    } else {
      assert !HasValue(key)(xs[0]) && IsMissing(key)(xs[0]);
      assert Filter(xs, HasValue(key)) == a;
      assert Filter(xs, IsMissing(key)) == [xs[0]] + b;
      assert multiset([xs[0]] + b) == multiset{xs[0]} + multiset(b);
    }
  }

  /** The cut concatenation meets every clause of `LargestFirst`. */
  lemma NLargestSplit<T>(xs: seq<T>, n: nat, key: T -> Option<real>, s: seq<T>, missing: seq<T>)
    requires multiset(s) == multiset(Filter(xs, HasValue(key)))
    requires NonIncreasing(s, ValueOrZero(key))
    requires missing == Filter(xs, IsMissing(key))
    ensures Min(n, |xs|) <= |s + missing|
    ensures LargestFirst(xs, n, key, (s + missing)[..Min(n, |xs|)])
  {
    var present := Filter(xs, HasValue(key));
    SplitParts(xs, key, present, s, missing);
    CutConcatLists(xs, n, key, present, s, missing);
  }

  /** Sorting the rows with a value and appending the others, then cutting, lists the largest first. */
  lemma CutConcatLists<T>(xs: seq<T>, n: nat, key: T -> Option<real>, present: seq<T>, s: seq<T>, missing: seq<T>)
    requires multiset(present) + multiset(missing) == multiset(xs)
    requires |s| == |present| && |present| + |missing| == |xs|
    requires forall x :: x in present ==> key(x).Some?
    requires forall x :: x in missing ==> key(x).None?
    requires multiset(s) == multiset(present) && NonIncreasing(s, ValueOrZero(key))
    ensures Min(n, |xs|) <= |s + missing|
    ensures ListsLargestFirst(xs, n, key, (s + missing)[..Min(n, |xs|)], present, missing)
  {
    var r := (s + missing)[..Min(n, |xs|)];
    CutConcatBounded(xs, present, s, missing, r);
    CutConcatValues(key, present, s, missing, r);
    CutConcatOrder(key, present, s, missing, r);
    CutConcatTop(key, present, s, missing, r);
    CutConcatPadding(s, missing, r);
  }

  /** What `NLargestSplit` needs to know about the two selections and the sorted copy. */
  lemma SplitParts<T>(xs: seq<T>, key: T -> Option<real>, present: seq<T>, s: seq<T>, missing: seq<T>)
    requires present == Filter(xs, HasValue(key))
    requires missing == Filter(xs, IsMissing(key))
    requires multiset(s) == multiset(present)
    ensures multiset(present) + multiset(missing) == multiset(xs)
    ensures |s| == |present| && |present| + |missing| == |xs|
    ensures forall x :: x in present ==> key(x).Some?
    ensures forall x :: x in missing ==> key(x).None?
  {
    PresentMissingSplit(xs, key);
    assert |s| == |present| by {
      assert |multiset(s)| == |multiset(present)|;
    }
    assert |present| + |missing| == |xs| by {
      assert |multiset(present) + multiset(missing)| == |multiset(xs)|;
    }
    forall x | x in present ensures key(x).Some? {
      assert HasValue(key)(x);
    }
    forall x | x in missing ensures key(x).None? {
      assert IsMissing(key)(x);
    }
  }

  /** An element of a cut concatenation comes from the first part or the second. */
  lemma CutConcatAt<T>(a: seq<T>, b: seq<T>, k: nat, i: nat)
    requires i < k <= |a| + |b|
    ensures (a + b)[..k][i] == if i < |a| then a[i] else b[i - |a|]
  {
  }

  lemma PrefixMultiset<T>(a: seq<T>, k: nat)
    requires k <= |a|
    ensures multiset(a[..k]) <= multiset(a)
  {
    assert a == a[..k] + a[k..];
  }

  /** The listing holds rows of the table, none more often than it occurs. */
  lemma CutConcatBounded<T>(xs: seq<T>, present: seq<T>, s: seq<T>, missing: seq<T>, r: seq<T>)
    requires multiset(present) + multiset(missing) == multiset(xs)
    requires multiset(s) == multiset(present)
    requires |r| <= |s| + |missing| && r == (s + missing)[..|r|]
    ensures multiset(r) <= multiset(xs)
  {
    PrefixMultiset(s + missing, |r|);
  }

  /** Exactly the rows taken from the sorted part have a value. */
  lemma CutConcatValues<T>(key: T -> Option<real>, present: seq<T>, s: seq<T>, missing: seq<T>, r: seq<T>)
    requires forall x :: x in present ==> key(x).Some?
    requires forall x :: x in missing ==> key(x).None?
    requires multiset(s) == multiset(present)
    requires |r| <= |s| + |missing| && r == (s + missing)[..|r|]
    ensures forall i :: 0 <= i < |r| ==> (key(r[i]).Some? <==> i < |s|)
  {
    forall i | 0 <= i < |r| ensures key(r[i]).Some? <==> i < |s| {
      CutConcatAt(s, missing, |r|, i);
      if i < |s| {
        assert s[i] in multiset(present);
      } else {
        assert missing[i - |s|] in missing;
      }
    }
  }

  /** The listed rows with a value come largest first. */
  lemma CutConcatOrder<T>(key: T -> Option<real>, present: seq<T>, s: seq<T>, missing: seq<T>, r: seq<T>)
    requires forall x :: x in present ==> key(x).Some?
    requires forall x :: x in missing ==> key(x).None?
    requires multiset(s) == multiset(present) && NonIncreasing(s, ValueOrZero(key))
    requires |r| <= |s| + |missing| && r == (s + missing)[..|r|]
    ensures forall i, j :: 0 <= i < j < |r| && key(r[j]).Some? ==>
              key(r[i]).Some? && key(r[j]).value <= key(r[i]).value
  {
    CutConcatValues(key, present, s, missing, r);
    forall i, j | 0 <= i < j < |r| && key(r[j]).Some?
      ensures key(r[i]).Some? && key(r[j]).value <= key(r[i]).value
    {
      CutConcatAt(s, missing, |r|, i);
      CutConcatAt(s, missing, |r|, j);
      assert ValueOrZero(key)(s[j]) <= ValueOrZero(key)(s[i]);
      ValueOrZeroAt(key, s[i]);
      ValueOrZeroAt(key, s[j]);
    }
  }

  /** No row with a value that is left out is larger than a listed one. */
  lemma CutConcatTop<T>(key: T -> Option<real>, present: seq<T>, s: seq<T>, missing: seq<T>, r: seq<T>)
    requires forall x :: x in present ==> key(x).Some?
    requires multiset(s) == multiset(present) && NonIncreasing(s, ValueOrZero(key))
    requires |r| <= |s| + |missing| && r == (s + missing)[..|r|]
    ensures forall x, y :: x in multiset(present) - multiset(r) && y in r ==>
              key(x).Some? && key(y).Some? && key(x).value <= key(y).value
  {
    if |r| <= |s| {
      assert |s| == |present| by {
        assert |multiset(s)| == |multiset(present)|;
      }
      assert r == s[..|r|];
      TakeSorted(present, s, |r|, key);
    } else {
      assert r == s + missing[..|r| - |s|];
      assert multiset(present) <= multiset(r);
    }
  }

  /** After the rows taken from the sorted part, the listing continues with the other part in order. */
  lemma CutConcatPadding<T>(s: seq<T>, missing: seq<T>, r: seq<T>)
    requires |r| <= |s| + |missing| && r == (s + missing)[..|r|]
    ensures |s| <= |r| ==> |r| - |s| <= |missing| && r[|s|..] == missing[..|r| - |s|]
  {
    if |s| <= |r| {
      assert r[|s|..] == missing[..|r| - |s|] by {
        forall i | 0 <= i < |r| - |s| ensures r[|s|..][i] == missing[i] {
          CutConcatAt(s, missing, |r|, |s| + i);
        }
      }
    }
  }

  /** Cutting a sorted copy of the present rows after `m` rows splits them into a top and a rest. */
  lemma TakeSorted<T>(present: seq<T>, s: seq<T>, m: nat, key: T -> Option<real>)
    requires forall x :: x in present ==> key(x).Some?
    requires multiset(s) == multiset(present) && NonIncreasing(s, ValueOrZero(key))
    requires m <= |present|
    ensures |s| == |present|
    ensures forall x :: x in s[..m] ==> key(x).Some?
    ensures NonIncreasing(s[..m], ValueOrZero(key))
    ensures multiset(s[..m]) <= multiset(present)
    ensures forall x, y :: x in multiset(present) - multiset(s[..m]) && y in s[..m] ==>
              key(x).GetOr(0.0) <= key(y).GetOr(0.0)
  {
    assert |s| == |present| by {
      assert |multiset(s)| == |multiset(present)|;
    }
    assert s == s[..m] + s[m..];
    assert multiset(s) == multiset(s[..m]) + multiset(s[m..]);
    forall x | x in s[..m] ensures key(x).Some? {
      assert x in multiset(present);
    }
    SortedCut(s, m, ValueOrZero(key));
    forall x, y | x in multiset(present) - multiset(s[..m]) && y in s[..m]
      ensures key(x).GetOr(0.0) <= key(y).GetOr(0.0)
    {
      assert x in multiset(s[m..]);
      ValueOrZeroAt(key, x);
      ValueOrZeroAt(key, y);
    }
  }

  /** In a descending sequence, nothing after the cut is larger than anything before it. */
  lemma SortedCut<T>(s: seq<T>, m: nat, key: T -> real)
    requires NonIncreasing(s, key) && m <= |s|
    ensures forall x, y :: x in multiset(s[m..]) && y in s[..m] ==> key(x) <= key(y)
  {
    forall x, y | x in multiset(s[m..]) && y in s[..m] ensures key(x) <= key(y) {
      var a :| 0 <= a < |s[m..]| && s[m..][a] == x;
      var b :| 0 <= b < |s[..m]| && s[..m][b] == y;
      assert s[b] == y && s[m + a] == x;
    }
  }
}

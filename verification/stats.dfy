/**
 Median imputation of a numeric column: `median()` skips missing values and
 `fillna(median)` writes that median into every missing cell.
 */
module Stats {
  import opened Base
  import opened FrameOps
  import opened Numeric

  function RealKey(x: real): real {
    x
  }

  function IsPresent(o: Option<real>): bool {
    o.Some?
  }

  function SomeOf(x: real): Option<real> {
    Some(x)
  }

  /** The present values of a column, in order (`col.dropna()`). */
  function Present(col: seq<Option<real>>): (r: seq<real>)
    ensures forall x :: x in r <==> Some(x) in col
    ensures |r| == Count(col, IsPresent) <= |col|
  {
    if |col| == 0 then []
    else
      var rest := Present(col[1..]);
      assert forall o :: o in col <==> o == col[0] || o in col[1..];
      if col[0].Some? then [col[0].value] + rest else rest
  }

  /**
   `dropna` keeps exactly the present cells, in order and with repeats:
   wrapping its values again gives the selection of the cells that hold one.
   */
  lemma {:induction false} PresentIsDropna(col: seq<Option<real>>)
    ensures MapRows(Present(col), SomeOf) == Filter(col, IsPresent)
    decreases |col|
  {
    if |col| > 0 {
      PresentIsDropna(col[1..]);
      var rest := Present(col[1..]);
      if col[0].Some? {
        assert Present(col) == [col[0].value] + rest;
        assert MapRows([col[0].value] + rest, SomeOf) == [col[0]] + MapRows(rest, SomeOf);
      }
    }
  }

  /** When exactly the cell at `k` is missing, `dropna` keeps every other value in order. */
  lemma {:induction false} PresentSkipsOne(col: seq<Option<real>>, k: nat)
    requires k < |col| && col[k].None?
    requires forall i :: 0 <= i < |col| && i != k ==> col[i].Some?
    ensures |Present(col)| == |col| - 1
    ensures forall i :: 0 <= i < k ==> Present(col)[i] == col[i].value
    ensures forall i :: k <= i < |col| - 1 ==> Present(col)[i] == col[i + 1].value
    decreases |col|
  {
    if k == 0 {
      PresentOfAllSome(col[1..]);
    } else {
      PresentSkipsOne(col[1..], k - 1);
    }
  }

  lemma {:induction false} PresentOfAllSome(col: seq<Option<real>>)
    requires forall i :: 0 <= i < |col| ==> col[i].Some?
    ensures |Present(col)| == |col|
    ensures forall i :: 0 <= i < |col| ==> Present(col)[i] == col[i].value
    decreases |col|
  {
    if |col| > 0 {
      PresentOfAllSome(col[1..]);
    }
  }

  lemma {:induction false} PresentOfMissing(col: seq<Option<real>>)
    requires forall i :: 0 <= i < |col| ==> col[i].None?
    ensures Present(col) == []
    decreases |col|
  {
    if |col| > 0 {
      PresentOfMissing(col[1..]);
    }
  }

  /** The middle of values in descending order: the middle value, or the mean of the two middle values. */
  function Middle(s: seq<real>): (m: Option<real>)
    requires NonIncreasing(s, RealKey)
    ensures m.Some? <==> |s| > 0
    ensures m.Some? ==> s[|s| / 2] <= m.value <= s[(|s| - 1) / 2]
  {
    var n := |s|;
    if n == 0 then None
    else if n % 2 == 1 then Some(s[n / 2])
    else
      assert RealKey(s[n / 2]) <= RealKey(s[n / 2 - 1]);
      Some((s[n / 2 - 1] + s[n / 2]) / 2.0)
  }

  /**
   `Series.median()` of the present values: the middle value of the sorted
   values, or the mean of the two middle values when their number is even;
   missing when there are no values.
   */
  function Median(xs: seq<real>): (m: Option<real>)
    ensures m.Some? <==> |xs| > 0
    ensures m.Some? ==> exists i :: 0 <= i < |xs| && xs[i] <= m.value
    ensures m.Some? ==> exists j :: 0 <= j < |xs| && m.value <= xs[j]
    ensures m.Some? && |xs| % 2 == 1 ==> m.value in xs
  {
    var s := SortDesc(xs, RealKey);
    assert |s| == |xs| by {
      assert |multiset(s)| == |multiset(xs)|;
    }
    var m := Middle(s);
    assert |s| > 0 ==> s[|s| / 2] in multiset(xs) && s[(|s| - 1) / 2] in multiset(xs);
    m
  }

  /** The first value of a descending sequence is its largest. */
  lemma HeadIsMax(a: seq<real>, x: real)
    requires NonIncreasing(a, RealKey) && x in multiset(a)
    ensures |a| > 0 && x <= a[0]
  {
    var i :| 0 <= i < |a| && a[i] == x;
    if i > 0 {
      assert RealKey(a[i]) <= RealKey(a[0]);
    }
  }

  lemma TailNonIncreasing(a: seq<real>)
    requires |a| > 0 && NonIncreasing(a, RealKey)
    ensures NonIncreasing(a[1..], RealKey)
  {
    forall i, j | 0 <= i < j < |a[1..]| ensures RealKey(a[1..][j]) <= RealKey(a[1..][i]) {
      assert a[1..][i] == a[i + 1] && a[1..][j] == a[j + 1];
    }
  }

  lemma MultisetTails(a: seq<real>, b: seq<real>)
    requires |a| > 0 && |b| > 0 && a[0] == b[0] && multiset(a) == multiset(b)
    ensures multiset(a[1..]) == multiset(b[1..])
  {
    assert a == [a[0]] + a[1..] && b == [b[0]] + b[1..];
    assert multiset(a) == multiset{a[0]} + multiset(a[1..]);
    assert multiset(b) == multiset{b[0]} + multiset(b[1..]);
    assert multiset(a[1..]) == multiset(a) - multiset{a[0]};
    assert multiset(b[1..]) == multiset(b) - multiset{b[0]};
  }

  /** Two descending orders of the same values are the same sequence. */
  lemma {:induction false} SortedUnique(a: seq<real>, b: seq<real>)
    requires NonIncreasing(a, RealKey) && NonIncreasing(b, RealKey)
    requires multiset(a) == multiset(b)
    ensures a == b
    decreases |a|
  {
    assert |a| == |b| by {
      assert |multiset(a)| == |multiset(b)|;
    }
    if |a| > 0 {
      HeadIsMax(b, a[0]);
      HeadIsMax(a, b[0]);
      MultisetTails(a, b);
      TailNonIncreasing(a);
      TailNonIncreasing(b);
      SortedUnique(a[1..], b[1..]);
    }
  }

  /** The median depends only on the values, not on the row order. */
  lemma MedianOrderFree(xs: seq<real>, ys: seq<real>)
    requires multiset(xs) == multiset(ys)
    ensures Median(xs) == Median(ys)
  {
    SortedUnique(SortDesc(xs, RealKey), SortDesc(ys, RealKey));
  }

  /** Sorting an already descending sequence leaves it unchanged, so its median is read off directly. */
  lemma MedianOfSorted(xs: seq<real>)
    requires NonIncreasing(xs, RealKey)
    ensures SortDesc(xs, RealKey) == xs
  {
    SortedUnique(SortDesc(xs, RealKey), xs);
  }

  /**
   On values already in descending order the median is read off directly:
   the middle value, or the mean of the two middle values.
   */
  lemma MedianOfDescending(xs: seq<real>)
    requires NonIncreasing(xs, RealKey) && |xs| > 0
    ensures |xs| % 2 == 1 ==> Median(xs) == Some(xs[|xs| / 2])
    ensures |xs| % 2 == 0 ==> Median(xs) == Some((xs[|xs| / 2 - 1] + xs[|xs| / 2]) / 2.0)
  {
    MedianOfSorted(xs);
    assert Median(xs) == Middle(xs);
  }

  /** `fillna(v)`: present cells unchanged, every missing cell becomes `v`. */
  function FillNa(col: seq<Option<real>>, v: Option<real>): (r: seq<Option<real>>)
    ensures |r| == |col|
    ensures forall i :: 0 <= i < |col| && col[i].Some? ==> r[i] == col[i]
    ensures forall i :: 0 <= i < |col| && col[i].None? ==> r[i] == v
  {
    seq(|col|, i requires 0 <= i < |col| => if col[i].Some? then col[i] else v)
  }

  /** The column after comma stripping and coercion, before filling. */
  function Parsed(col: seq<Cell>): (r: seq<Option<real>>)
    ensures |r| == |col|
    ensures forall i :: 0 <= i < |col| ==> r[i] == ToNumeric(col[i])
  {
    seq(|col|, i requires 0 <= i < |col| => ToNumeric(col[i]))
  }

  /** The fill value: the median of the values that parsed. */
  function FillValue(col: seq<Cell>): Option<real> {
    Median(Present(Parsed(col)))
  }

  /**
   The amount cleaning of `clean_data` and of the cleaning script: strip
   commas, coerce failures to missing, then fill every missing amount with
   the median of the amounts that parsed.
   */
  function CleanAmounts(col: seq<Cell>): (r: seq<Option<real>>)
    ensures |r| == |col|
    ensures forall i :: 0 <= i < |col| && ToNumeric(col[i]).Some? ==> r[i] == ToNumeric(col[i])
    ensures forall i :: 0 <= i < |col| && ToNumeric(col[i]).None? ==> r[i] == FillValue(col)
  {
    FillNa(Parsed(col), FillValue(col))
  }

  /**
   If at least one amount parses, no amount is missing after cleaning; if
   none parses, the median is missing and every amount stays missing.
   */
  lemma CleanAmountsComplete(col: seq<Cell>)
    ensures (exists i :: 0 <= i < |col| && ToNumeric(col[i]).Some?) ==>
              forall i :: 0 <= i < |col| ==> CleanAmounts(col)[i].Some?
    ensures (forall i :: 0 <= i < |col| ==> ToNumeric(col[i]).None?) ==>
              forall i :: 0 <= i < |col| ==> CleanAmounts(col)[i].None?
  {
    var parsed := Parsed(col);
    if i :| 0 <= i < |col| && ToNumeric(col[i]).Some? {
      assert parsed[i] in parsed;
      assert parsed[i].value in Present(parsed);
    } else {
      PresentOfMissing(parsed);
    }
  }

  /** A filled amount lies between the smallest and the largest amount that parsed. */
  lemma FillValueWithinRange(col: seq<Cell>)
    requires FillValue(col).Some?
    ensures exists i :: 0 <= i < |col| && ToNumeric(col[i]).Some? && ToNumeric(col[i]).value <= FillValue(col).value
    ensures exists j :: 0 <= j < |col| && ToNumeric(col[j]).Some? && FillValue(col).value <= ToNumeric(col[j]).value
  {
    var parsed := Parsed(col);
    var vs := Present(parsed);
    var m := FillValue(col).value;
    var a :| 0 <= a < |vs| && vs[a] <= m;
    var b :| 0 <= b < |vs| && m <= vs[b];
    assert Some(vs[a]) in parsed && Some(vs[b]) in parsed;
    var i :| 0 <= i < |parsed| && parsed[i] == Some(vs[a]);
    var j :| 0 <= j < |parsed| && parsed[j] == Some(vs[b]);
    assert ToNumeric(col[i]).value <= m;
    assert m <= ToNumeric(col[j]).value;
  }
}

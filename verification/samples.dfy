/**
 The scripts' own sample tables, and what cleaning does to them: Rahul's
 missing investment becomes the median 25000, and the deposit table's
 missing amount becomes the median 8500.
 */
module Samples {
  import opened Base
  import opened FrameOps
  import opened Numeric
  import opened Stats
  import opened Pipeline
  import opened Cleaning

  /** The raw table the pipeline's extractor builds. */
  function SampleClients(): seq<Client<Cell>> {
    [ Client(101, "Ankit", Num(10000.0), "High"),
      Client(102, "Rohan", Text("15,000"), "Medium"),
      Client(103, "Priya", Num(12000.0), "Low"),
      Client(104, "Rahul", NaN, "High"),
      Client(105, "Sonal", Num(50000.0), "Medium"),
      Client(106, "Amit", Num(30000.0), "Low"),
      Client(107, "Neha", Text("20000"), "High"),
      Client(108, "Vikas", Num(25000.0), "Medium"),
      Client(109, "Pooja", Num(40000.0), "Low"),
      Client(110, "Karan", Num(35000.0), "Medium") ]
  }

  /** The nine sample amounts, in table order, with Rahul's missing cell skipped. */
  predicate NineSampleValues(vs: seq<real>) {
    |vs| == 9 &&
    vs[0] == 10000.0 && vs[1] == 15000.0 && vs[2] == 12000.0 && vs[3] == 50000.0 &&
    vs[4] == 30000.0 && vs[5] == 20000.0 && vs[6] == 25000.0 && vs[7] == 40000.0 &&
    vs[8] == 35000.0
  }

  /** Exchanging two values keeps the same values. */
  lemma SwapSameValues(s: seq<real>, i: nat, j: nat) returns (t: seq<real>)
    requires i < j < |s|
    ensures |t| == |s| && t[i] == s[j] && t[j] == s[i]
    ensures forall k :: 0 <= k < |s| && k != i && k != j ==> t[k] == s[k]
    ensures multiset(t) == multiset(s)
  {
    t := s[i := s[j]][j := s[i]];
  }

  /** The nine sample amounts are a reordering of the descending list: seven exchanges sort them. */
  lemma NineSameValues(vs: seq<real>, sorted: seq<real>)
    requires NineSampleValues(vs)
    requires sorted == [50000.0, 40000.0, 35000.0, 30000.0, 25000.0, 20000.0, 15000.0, 12000.0, 10000.0]
    ensures multiset(vs) == multiset(sorted)
  {
    var s1 := SwapSameValues(vs, 0, 3);
    var s2 := SwapSameValues(s1, 1, 7);
    var s3 := SwapSameValues(s2, 2, 8);
    var s4 := SwapSameValues(s3, 3, 4);
    var s5 := SwapSameValues(s4, 4, 6);
    var s6 := SwapSameValues(s5, 6, 7);
    var s7 := SwapSameValues(s6, 7, 8);
    assert forall k :: 0 <= k < 9 ==> s7[k] == sorted[k];
    assert s7 == sorted;
  }

  lemma NineDescending(sorted: seq<real>)
    requires sorted == [50000.0, 40000.0, 35000.0, 30000.0, 25000.0, 20000.0, 15000.0, 12000.0, 10000.0]
    ensures NonIncreasing(sorted, RealKey)
  {
  }

  /** The median of nine values is the fifth largest. */
  lemma MedianOfNine(vs: seq<real>, sorted: seq<real>)
    requires |sorted| == 9 && NonIncreasing(sorted, RealKey) && multiset(vs) == multiset(sorted)
    ensures Median(vs) == Some(sorted[4])
  {
    MedianOfDescending(sorted);
    MedianOrderFree(vs, sorted);
  }

  /** The nine sample amounts sorted largest first; the fifth is 25000. */
  lemma SortNineSample(vs: seq<real>) returns (sorted: seq<real>)
    requires NineSampleValues(vs)
    ensures |sorted| == 9 && sorted[4] == 25000.0
    ensures NonIncreasing(sorted, RealKey) && multiset(vs) == multiset(sorted)
  {
    sorted := [50000.0, 40000.0, 35000.0, 30000.0, 25000.0, 20000.0, 15000.0, 12000.0, 10000.0];
    NineSameValues(vs, sorted);
    NineDescending(sorted);
  }

  /** The median of the nine sample amounts is 25000. */
  lemma NineSampleMedian(vs: seq<real>)
    requires NineSampleValues(vs)
    ensures Median(vs) == Some(25000.0)
  {
    var sorted := SortNineSample(vs);
    MedianOfNine(vs, sorted);
  }

  /** A column parsing like the sample's amounts has these nine present values. */
  lemma TenSamplePresent(col: seq<Cell>)
    requires |col| == 10
    requires ToNumeric(col[0]) == Some(10000.0) && ToNumeric(col[1]) == Some(15000.0)
    requires ToNumeric(col[2]) == Some(12000.0) && ToNumeric(col[3]) == None
    requires ToNumeric(col[4]) == Some(50000.0) && ToNumeric(col[5]) == Some(30000.0)
    requires ToNumeric(col[6]) == Some(20000.0) && ToNumeric(col[7]) == Some(25000.0)
    requires ToNumeric(col[8]) == Some(40000.0) && ToNumeric(col[9]) == Some(35000.0)
    ensures NineSampleValues(Present(Parsed(col)))
  {
    PresentSkipsOne(Parsed(col), 3);
  }

  lemma FillOfTen(col: seq<Cell>)
    requires |col| == 10
    requires ToNumeric(col[0]) == Some(10000.0) && ToNumeric(col[1]) == Some(15000.0)
    requires ToNumeric(col[2]) == Some(12000.0) && ToNumeric(col[3]) == None
    requires ToNumeric(col[4]) == Some(50000.0) && ToNumeric(col[5]) == Some(30000.0)
    requires ToNumeric(col[6]) == Some(20000.0) && ToNumeric(col[7]) == Some(25000.0)
    requires ToNumeric(col[8]) == Some(40000.0) && ToNumeric(col[9]) == Some(35000.0)
    ensures FillValue(col) == Some(25000.0)
  {
    TenSamplePresent(col);
    NineSampleMedian(Present(Parsed(col)));
  }

  /** The sample's raw amount cells. */
  predicate SampleAmountCells(col: seq<Cell>) {
    |col| == 10 &&
    col[0] == Num(10000.0) && col[1] == Text("15,000") && col[2] == Num(12000.0) &&
    col[3] == NaN && col[4] == Num(50000.0) && col[5] == Num(30000.0) &&
    col[6] == Text("20000") && col[7] == Num(25000.0) && col[8] == Num(40000.0) &&
    col[9] == Num(35000.0)
  }

  lemma SampleAmountColumn()
    ensures SampleAmountCells(AmountColumn(SampleClients()))
  {
  }

  /** How `pd.to_numeric(..., errors='coerce')` reads the sample's raw amounts. */
  lemma SampleAmountsParse(col: seq<Cell>)
    requires SampleAmountCells(col)
    ensures |col| == 10
    ensures ToNumeric(col[0]) == Some(10000.0) && ToNumeric(col[1]) == Some(15000.0)
    ensures ToNumeric(col[2]) == Some(12000.0) && ToNumeric(col[3]) == None
    ensures ToNumeric(col[4]) == Some(50000.0) && ToNumeric(col[5]) == Some(30000.0)
    ensures ToNumeric(col[6]) == Some(20000.0) && ToNumeric(col[7]) == Some(25000.0)
    ensures ToNumeric(col[8]) == Some(40000.0) && ToNumeric(col[9]) == Some(35000.0)
  {
    Sample15000();
    Sample20000();
  }

  /** Rahul's missing investment is filled with the median of the nine parsed amounts, 25000. */
  lemma SampleRahulFilled()
    ensures CleanData(SampleClients())[3].amount == Some(25000.0)
  {
    var rows := SampleClients();
    var col := AmountColumn(rows);
    SampleAmountColumn();
    SampleAmountsParse(col);
    FillOfTen(col);
    assert ToNumeric(rows[3].amount).None?;
  }

  // ---------------------------------------------------------------------------
  // The deposit-cleaning sample
  // ---------------------------------------------------------------------------

  /** The deposit table as entered, with Ankit's row typed twice. */
  function SampleDeposits(): seq<RawDeposit> {
    [ Deposit("Ankit", "2025-01-01", Num(5000.0), "Active"),
      Deposit("Rohan", "01/02/2025", Num(10000.0), "Active"),
      Deposit("Priya", "2025-03-01", NaN, "Closed"),
      Deposit("Ankit", "2025-01-01", Num(5000.0), "Active"),
      Deposit("Rahul", "Invalid_Date", Num(7000.0), "Active"),
      Deposit("Sonal", "2025-06-01", Text("12,000"), "active") ]
  }

  /** `drop_duplicates` removes the second Ankit row and keeps the other five in order. */
  lemma SampleDedup()
    ensures DropDuplicates(SampleDeposits()) == SampleDeposits()[..3] + SampleDeposits()[4..]
  {
    var xs := SampleDeposits();
    var p := xs[..3];
    var q := xs[4..];
    assert xs == p + [xs[3]] + q;
    assert xs[3] == p[0];
    DropDuplicatesOneRepeat(p, xs[3], q);
  }

  /** The four amounts that read as numbers after de-duplication. */
  predicate FourSampleValues(vs: seq<real>) {
    |vs| == 4 && vs[0] == 5000.0 && vs[1] == 10000.0 && vs[2] == 7000.0 && vs[3] == 12000.0
  }

  lemma FourAsLiteral(vs: seq<real>)
    requires FourSampleValues(vs)
    ensures vs == [5000.0, 10000.0, 7000.0, 12000.0]
  {
  }

  lemma FourLiteralSameValues(vs: seq<real>, sorted: seq<real>)
    requires vs == [5000.0, 10000.0, 7000.0, 12000.0]
    requires sorted == [12000.0, 10000.0, 7000.0, 5000.0]
    ensures multiset(vs) == multiset(sorted)
  {
  }

  /** The four amounts sorted largest first. */
  lemma SortFourSample(vs: seq<real>) returns (sorted: seq<real>)
    requires FourSampleValues(vs)
    ensures |sorted| == 4 && sorted[1] == 10000.0 && sorted[2] == 7000.0
    ensures NonIncreasing(sorted, RealKey) && multiset(vs) == multiset(sorted)
  {
    sorted := [12000.0, 10000.0, 7000.0, 5000.0];
    FourAsLiteral(vs);
    FourLiteralSameValues(vs, sorted);
  }

  /** The median of four values is the mean of the second and third largest. */
  lemma MedianOfFour(vs: seq<real>, sorted: seq<real>)
    requires |sorted| == 4 && NonIncreasing(sorted, RealKey) && multiset(vs) == multiset(sorted)
    ensures Median(vs) == Some((sorted[1] + sorted[2]) / 2.0)
  {
    MedianOfDescending(sorted);
    assert |sorted| / 2 - 1 == 1 && |sorted| / 2 == 2;
    assert Median(sorted) == Some((sorted[1] + sorted[2]) / 2.0);
    MedianOrderFree(vs, sorted);
  }

  /** The median of 5000, 10000, 7000 and 12000 is 8500. */
  lemma FourSampleMedian(vs: seq<real>)
    requires FourSampleValues(vs)
    ensures Median(vs) == Some(8500.0)
  {
    var sorted := SortFourSample(vs);
    MedianOfFour(vs, sorted);
  }

  /** The de-duplicated amount cells. */
  predicate DedupAmountCells(col: seq<Cell>) {
    |col| == 5 &&
    col[0] == Num(5000.0) && col[1] == Num(10000.0) && col[2] == NaN &&
    col[3] == Num(7000.0) && col[4] == Text("12,000")
  }

  lemma DedupAmountColumn()
    ensures DedupAmountCells(Amounts(SampleDeposits()[..3] + SampleDeposits()[4..]))
  {
    var xs := SampleDeposits();
    var d := xs[..3] + xs[4..];
    assert d[3] == xs[4] && d[4] == xs[5];
  }

  lemma DedupAmountsParse(col: seq<Cell>)
    requires DedupAmountCells(col)
    ensures ToNumeric(col[0]) == Some(5000.0) && ToNumeric(col[1]) == Some(10000.0)
    ensures ToNumeric(col[2]) == None && ToNumeric(col[3]) == Some(7000.0)
    ensures ToNumeric(col[4]) == Some(12000.0)
  {
    Sample12000();
  }

  lemma FillOfFive(col: seq<Cell>)
    requires |col| == 5
    requires ToNumeric(col[0]) == Some(5000.0) && ToNumeric(col[1]) == Some(10000.0)
    requires ToNumeric(col[2]) == None && ToNumeric(col[3]) == Some(7000.0)
    requires ToNumeric(col[4]) == Some(12000.0)
    ensures FillValue(col) == Some(8500.0)
  {
    PresentSkipsOne(Parsed(col), 2);
    FourSampleMedian(Present(Parsed(col)));
  }

  /**
   Priya's missing deposit is filled with 8500, the median of the amounts
   left after de-duplication (Rahul's 7000 counts although his row is later
   dropped for its date).
   */
  lemma SampleDepositFill()
    ensures FillValue(Amounts(DropDuplicates(SampleDeposits()))) == Some(8500.0)
  {
    SampleDedup();
    var col := Amounts(SampleDeposits()[..3] + SampleDeposits()[4..]);
    DedupAmountColumn();
    DedupAmountsParse(col);
    FillOfFive(col);
  }

  /** Sonal's "12,000" and a numeric 12000 entry of the same deposit both survive de-duplication. */
  lemma SampleRawDuplicate()
    ensures DropDuplicates([Deposit("Sonal", "2025-06-01", Text("12,000"), "active"),
                            Deposit("Sonal", "2025-06-01", Num(12000.0), "active")]) ==
            [Deposit("Sonal", "2025-06-01", Text("12,000"), "active"),
             Deposit("Sonal", "2025-06-01", Num(12000.0), "active")]
  {
    Sample12000();
    DedupComparesRawCells(Deposit("Sonal", "2025-06-01", Text("12,000"), "active"),
                          Deposit("Sonal", "2025-06-01", Num(12000.0), "active"));
  }
}

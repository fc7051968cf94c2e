/**
 The four-stage portfolio pipeline: clean the investment amounts, attach a
 return rate by risk level and the projected profit, total the profit per
 risk level, and list the three most profitable clients.
 */
module Pipeline {
  import opened Base
  import opened FrameOps
  import opened Numeric
  import opened Stats
  import opened Grouping

  /** One client row; the type of the amount column changes from raw cells to numbers. */
  datatype Client<A> = Client(clientId: int, name: string, amount: A, risk: string)

  /** A client row after analysis, with the two appended columns. */
  datatype Position = Position(client: Client<Option<real>>, rate: real, profit: Option<real>)

  function AmountColumn<A>(rows: seq<Client<A>>): (col: seq<A>)
    ensures |col| == |rows| && forall i :: 0 <= i < |rows| ==> col[i] == rows[i].amount
  {
    seq(|rows|, i requires 0 <= i < |rows| => rows[i].amount)
  }

  // ---------------------------------------------------------------------------
  // Stage 2: clean_data
  // ---------------------------------------------------------------------------

  /**
   `clean_data`: the amount column is comma-stripped, coerced and
   median-filled; every other column, the row count and the row order are
   unchanged.
   */
  function CleanData(rows: seq<Client<Cell>>): (r: seq<Client<Option<real>>>)
    ensures |r| == |rows|
    ensures forall i :: 0 <= i < |rows| ==>
              r[i].clientId == rows[i].clientId && r[i].name == rows[i].name && r[i].risk == rows[i].risk
    ensures forall i :: 0 <= i < |rows| && ToNumeric(rows[i].amount).Some? ==>
              r[i].amount == ToNumeric(rows[i].amount)
    ensures forall i :: 0 <= i < |rows| && ToNumeric(rows[i].amount).None? ==>
              r[i].amount == FillValue(AmountColumn(rows))
  {
    var col := CleanAmounts(AmountColumn(rows));
    seq(|rows|, i requires 0 <= i < |rows| =>
      Client(rows[i].clientId, rows[i].name, col[i], rows[i].risk))
  }

  /** After cleaning no amount is missing, provided at least one raw amount reads as a number. */
  lemma CleanDataComplete(rows: seq<Client<Cell>>)
    requires exists i :: 0 <= i < |rows| && ToNumeric(rows[i].amount).Some?
    ensures forall i :: 0 <= i < |rows| ==> CleanData(rows)[i].amount.Some?
  {
    var col := AmountColumn(rows);
    CleanAmountsComplete(col);
    var r := CleanData(rows);
    forall i | 0 <= i < |rows| ensures r[i].amount.Some? {
      if ToNumeric(rows[i].amount).None? {
        assert CleanAmounts(col)[i] == FillValue(col);
        var j :| 0 <= j < |rows| && ToNumeric(rows[j].amount).Some?;
        assert ToNumeric(col[j]).Some?;
      }
    }
  }

  // ---------------------------------------------------------------------------
  // Stage 3: analyze_data
  // ---------------------------------------------------------------------------

  /**
   `np.select` over the three risk conditions with default 0: the rate is
   0.15, 0.10 or 0.06 for exactly 'High', 'Medium' or 'Low' (case-sensitive)
   and 0 for any other risk level.
   */
  function ReturnRate(risk: string): (rate: real)
    ensures rate == 0.15 <==> risk == "High"
    ensures rate == 0.10 <==> risk == "Medium"
    ensures rate == 0.06 <==> risk == "Low"
    ensures rate == 0.0 <==> risk != "High" && risk != "Medium" && risk != "Low"
  {
    if risk == "High" then 0.15
    else if risk == "Medium" then 0.10
    else if risk == "Low" then 0.06
    else 0.0
  }

  /**
   `analyze_data`: appends the rate of each row's risk level and the
   projected profit amount * rate (missing when the amount is missing);
   the original columns, the row count and the row order are unchanged.
   */
  function AnalyzeData(rows: seq<Client<Option<real>>>): (r: seq<Position>)
    ensures |r| == |rows|
    ensures forall i :: 0 <= i < |rows| ==> r[i].client == rows[i]
    ensures forall i :: 0 <= i < |rows| ==> r[i].rate == ReturnRate(rows[i].risk)
    ensures forall i :: 0 <= i < |rows| ==> (r[i].profit.Some? <==> rows[i].amount.Some?)
    ensures forall i :: 0 <= i < |rows| && rows[i].amount.Some? ==>
              r[i].profit.value == rows[i].amount.value * ReturnRate(rows[i].risk)
  {
    seq(|rows|, i requires 0 <= i < |rows| =>
      var rate := ReturnRate(rows[i].risk);
      Position(rows[i], rate, match rows[i].amount
                              case Some(a) => Some(a * rate)
                              case None => None))
  }

  // ---------------------------------------------------------------------------
  // Stage 4: generate_report's summary, and the top-3 listing
  // ---------------------------------------------------------------------------

  /** `sum` skips a missing profit, which is the same as counting it as zero. */
  function ProfitOrZero(p: Position): real {
    p.profit.GetOr(0.0)
  }

  function ProfitColumn(p: Position): Option<real> {
    p.profit
  }

  function HasRisk(k: string): Position -> bool {
    (p: Position) => p.client.risk == k
  }

  /** Each row as (risk level, profit) for grouping. */
  function ProfitEntries(rows: seq<Position>): (es: seq<Entry>)
    ensures |es| == |rows|
    ensures Total(es) == SumOf(rows, ProfitOrZero)
    ensures forall k :: KeySum(es, [k]) == SumOf(Filter(rows, HasRisk(k)), ProfitOrZero)
  {
    if |rows| == 0 then []
    else
      var rest := ProfitEntries(rows[1..]);
      var es := [Entry([rows[0].client.risk], ProfitOrZero(rows[0]))] + rest;
      assert es[1..] == rest;
      assert forall k :: [rows[0].client.risk] == [k] <==> rows[0].client.risk == k by {
        forall k ensures [rows[0].client.risk] == [k] ==> rows[0].client.risk == k {
          if [rows[0].client.risk] == [k] {
            assert [rows[0].client.risk][0] == [k][0];
          }
        }
      }
      es
  }

  /**
   The profit summed per risk level (`groupby` and `sum`): one
   row per distinct risk level, ascending, holding the profit of that risk
   level's rows; the per-level totals add up to the total profit.
   */
  function RiskSummary(rows: seq<Position>): (g: seq<Entry>)
    ensures Ascending(g)
    ensures Keys(g) == Keys(ProfitEntries(rows))
    ensures forall i :: 0 <= i < |g| ==>
              |g[i].key| == 1 && g[i].amount == SumOf(Filter(rows, HasRisk(g[i].key[0])), ProfitOrZero)
    ensures Total(g) == SumOf(rows, ProfitOrZero)
  {
    var es := ProfitEntries(rows);
    var g := GroupSum(es);
    forall i | 0 <= i < |g| ensures |g[i].key| == 1 && g[i].key == [g[i].key[0]] {
      InKeys(g, g[i].key);
      InKeys(es, g[i].key);
      var j :| 0 <= j < |es| && es[j].key == g[i].key;
      SingleKeys(rows, j);
    }
    g
  }

  lemma {:induction false} SingleKeys(rows: seq<Position>, j: nat)
    requires j < |rows|
    ensures ProfitEntries(rows)[j].key == [rows[j].client.risk]
    decreases |rows|
  {
    if j > 0 {
      SingleKeys(rows[1..], j - 1);
    }
  }

  /** Each risk level of the table has exactly one summary row. */
  lemma RiskSummaryCoversLevels(rows: seq<Position>, i: nat)
    requires i < |rows|
    ensures exists j :: 0 <= j < |RiskSummary(rows)| && RiskSummary(rows)[j].key == [rows[i].client.risk]
  {
    var es := ProfitEntries(rows);
    SingleKeys(rows, i);
    InKeys(es, [rows[i].client.risk]);
    InKeys(RiskSummary(rows), [rows[i].client.risk]);
  }

  /**
   The three largest projected profits (`nlargest`): three rows (fewer only when the
   table is shorter). The rows with a profit come first, largest first, and
   no row left out has a larger profit than one listed; if fewer than three
   rows have a profit, rows without one fill the listing in table order.
   */
  function TopThree(rows: seq<Position>): (r: seq<Position>)
    ensures |r| == Min(3, |rows|)
    ensures multiset(r) <= multiset(rows)
    ensures forall i :: 0 <= i < |r| ==> (r[i].profit.Some? <==> i < Count(rows, HasValue(ProfitColumn)))
    ensures forall i, j :: 0 <= i < j < |r| && r[j].profit.Some? ==>
              r[i].profit.Some? && r[j].profit.value <= r[i].profit.value
    ensures forall x, y :: x in multiset(Filter(rows, HasValue(ProfitColumn))) - multiset(r) && y in r ==>
              x.profit.Some? && y.profit.Some? && x.profit.value <= y.profit.value
    ensures Count(rows, HasValue(ProfitColumn)) <= |r| ==>
              |r| - Count(rows, HasValue(ProfitColumn)) <= |Filter(rows, IsMissing(ProfitColumn))| &&
              r[Count(rows, HasValue(ProfitColumn))..] ==
              Filter(rows, IsMissing(ProfitColumn))[..|r| - Count(rows, HasValue(ProfitColumn))]
  {
    var r := NLargest(rows, 3, ProfitColumn);
    TopThreeListing(rows, r, Filter(rows, HasValue(ProfitColumn)), Filter(rows, IsMissing(ProfitColumn)));
    r
  }

  /** `LargestFirst` on the profit column, read in terms of the rows' profits. */
  lemma TopThreeListing(rows: seq<Position>, r: seq<Position>, present: seq<Position>, missing: seq<Position>)
    requires present == Filter(rows, HasValue(ProfitColumn))
    requires missing == Filter(rows, IsMissing(ProfitColumn))
    requires ListsLargestFirst(rows, 3, ProfitColumn, r, present, missing)
    ensures |present| == Count(rows, HasValue(ProfitColumn))
    ensures |present| <= |r| ==> |r| - |present| <= |missing| && r[|present|..] == missing[..|r| - |present|]
    ensures forall i :: 0 <= i < |r| ==> (r[i].profit.Some? <==> i < |present|)
    ensures forall i, j :: 0 <= i < j < |r| && r[j].profit.Some? ==>
              r[i].profit.Some? && r[j].profit.value <= r[i].profit.value
    ensures forall x, y :: x in multiset(present) - multiset(r) && y in r ==>
              x.profit.Some? && y.profit.Some? && x.profit.value <= y.profit.value
  {
    forall i | 0 <= i < |r| ensures r[i].profit.Some? <==> i < |present| {
      assert ProfitColumn(r[i]).Some? <==> i < |present|;
    }
    forall i, j | 0 <= i < j < |r| && r[j].profit.Some?
      ensures r[i].profit.Some? && r[j].profit.value <= r[i].profit.value
    {
      assert ProfitColumn(r[j]).Some?;
    }
    forall x, y | x in multiset(present) - multiset(r) && y in r
      ensures x.profit.Some? && y.profit.Some? && x.profit.value <= y.profit.value
    {
      assert ProfitColumn(x).Some? && ProfitColumn(y).Some?;
    }
  }

  lemma {:induction false} CountAll<T>(xs: seq<T>, p: T -> bool)
    requires forall i :: 0 <= i < |xs| ==> p(xs[i])
    ensures Count(xs, p) == |xs|
    decreases |xs|
  {
    if |xs| > 0 {
      CountAll(xs[1..], p);
    }
  }

  // ---------------------------------------------------------------------------
  // The whole run
  // ---------------------------------------------------------------------------

  datatype Report = Report(table: seq<Position>, summary: seq<Entry>, top: seq<Position>)

  /** The full run: clean, analyse, total per risk level, list the top three. */
  function RunPipeline(raw: seq<Client<Cell>>): (rep: Report)
    ensures |rep.table| == |raw|
    ensures forall i :: 0 <= i < |raw| ==>
              rep.table[i].client.name == raw[i].name && rep.table[i].client.risk == raw[i].risk
    ensures Total(rep.summary) == SumOf(rep.table, ProfitOrZero)
    ensures |rep.top| == Min(3, |raw|)
    ensures multiset(rep.top) <= multiset(rep.table)
  {
    var table := AnalyzeData(CleanData(raw));
    Report(table, RiskSummary(table), TopThree(table))
  }

  /**
   When some amount parses, every row has a profit, so the listing holds the
   min(3, n) most profitable rows, all with a profit.
   */
  lemma TopThreeFull(raw: seq<Client<Cell>>)
    requires exists i :: 0 <= i < |raw| && ToNumeric(raw[i].amount).Some?
    ensures forall i :: 0 <= i < |raw| ==> RunPipeline(raw).table[i].profit.Some?
    ensures forall p :: p in RunPipeline(raw).top ==> p.profit.Some?
  {
    var table := AnalyzeData(CleanData(raw));
    ProfitsComplete(raw);
    ProfitCountAll(table);
    var top := TopThree(table);
    assert RunPipeline(raw) == Report(table, RiskSummary(table), top);
    forall p | p in top ensures p.profit.Some? {
      var i :| 0 <= i < |top| && top[i] == p;
    }
  }

  /**
   When no amount parses, no row has a profit and the listing is the first
   min(3, n) rows of the table, as `nlargest` keeps missing values last.
   */
  lemma TopThreeNoneParse(raw: seq<Client<Cell>>)
    requires forall i :: 0 <= i < |raw| ==> ToNumeric(raw[i].amount).None?
    ensures RunPipeline(raw).top == RunPipeline(raw).table[..Min(3, |raw|)]
    ensures forall p :: p in RunPipeline(raw).top ==> p.profit.None?
  {
    CleanDataNoneParse(raw);
    var table := AnalyzeData(CleanData(raw));
    NLargestAllMissing(table, 3, ProfitColumn);
    assert RunPipeline(raw) == Report(table, RiskSummary(table), TopThree(table));
  }

  /** When no amount parses, the median is missing too and every cleaned amount stays missing. */
  lemma CleanDataNoneParse(raw: seq<Client<Cell>>)
    requires forall i :: 0 <= i < |raw| ==> ToNumeric(raw[i].amount).None?
    ensures forall i :: 0 <= i < |raw| ==> CleanData(raw)[i].amount.None?
  {
    var col := AmountColumn(raw);
    CleanAmountsComplete(col);
    assert forall i :: 0 <= i < |col| ==> CleanAmounts(col)[i].None?;
  }

  /** When some amount parses, the analysed table has a profit in every row. */
  lemma ProfitsComplete(raw: seq<Client<Cell>>)
    requires exists i :: 0 <= i < |raw| && ToNumeric(raw[i].amount).Some?
    ensures forall i :: 0 <= i < |raw| ==> AnalyzeData(CleanData(raw))[i].profit.Some?
  {
    CleanDataComplete(raw);
  }

  /** When every row has a profit, every row counts towards the listing. */
  lemma ProfitCountAll(table: seq<Position>)
    requires forall i :: 0 <= i < |table| ==> table[i].profit.Some?
    ensures Count(table, HasValue(ProfitColumn)) == |table|
  {
    forall i | 0 <= i < |table| ensures HasValue(ProfitColumn)(table[i]) {
      HasValueAt(ProfitColumn, table[i]);
    }
    CountAll(table, HasValue(ProfitColumn));
  }
}

/**
 The aggregation script over a transaction table: total per client sorted
 largest first, total per (city, asset class), the city-by-asset pivot table
 with empty cells shown as 0, and the completed transactions above 10,000.
 */
module Aggregation {
  import opened Base
  import opened FrameOps
  import opened Grouping

  datatype Transaction = Transaction(id: int, client: string, city: string, asset: string,
                                     amount: real, status: string)

  function TxAmount(t: Transaction): real {
    t.amount
  }

  function CityOf(t: Transaction): string {
    t.city
  }

  function AssetOf(t: Transaction): string {
    t.asset
  }

  function IsClient(c: string): Transaction -> bool {
    (t: Transaction) => t.client == c
  }

  function InCity(c: string): Transaction -> bool {
    (t: Transaction) => t.city == c
  }

  function InCell(c: string, a: string): Transaction -> bool {
    (t: Transaction) => t.city == c && t.asset == a
  }

  // ---------------------------------------------------------------------------
  // Total amount per client, largest total first
  // ---------------------------------------------------------------------------

  /** Each transaction as (client, amount) for grouping. */
  function ClientEntries(txs: seq<Transaction>): (es: seq<Entry>)
    ensures |es| == |txs|
    ensures forall i :: 0 <= i < |txs| ==> es[i].key == [txs[i].client]
    ensures Total(es) == SumOf(txs, TxAmount)
    ensures forall c :: KeySum(es, [c]) == SumOf(Filter(txs, IsClient(c)), TxAmount)
  {
    if |txs| == 0 then []
    else
      var rest := ClientEntries(txs[1..]);
      var es := [Entry([txs[0].client], txs[0].amount)] + rest;
      assert es[1..] == rest;
      assert forall i :: 1 <= i < |txs| ==> txs[i] == txs[1..][i - 1];
      ClientSumStep(txs, rest);
      es
  }

  /** A client's sum, one transaction further along: the first transaction adds to its own client only. */
  lemma ClientSumStep(txs: seq<Transaction>, rest: seq<Entry>)
    requires |txs| > 0
    requires forall c :: KeySum(rest, [c]) == SumOf(Filter(txs[1..], IsClient(c)), TxAmount)
    ensures forall c :: KeySum([Entry([txs[0].client], txs[0].amount)] + rest, [c]) ==
                        SumOf(Filter(txs, IsClient(c)), TxAmount)
  {
    var es := [Entry([txs[0].client], txs[0].amount)] + rest;
    assert es[1..] == rest;
    SingletonKeys(txs[0].client);
    forall c ensures KeySum(es, [c]) == SumOf(Filter(txs, IsClient(c)), TxAmount) {
      var f := Filter(txs[1..], IsClient(c));
      if txs[0].client == c {
        assert Filter(txs, IsClient(c)) == [txs[0]] + f;
        assert ([txs[0]] + f)[1..] == f;
      } else {
        assert Filter(txs, IsClient(c)) == f;
      }
    }
  }

  /** Two one-column keys are equal exactly when their values are. */
  lemma SingletonKeys(x: string)
    ensures forall c :: [x] == [c] <==> x == c
  {
    forall c ensures [x] == [c] ==> x == c {
      if [x] == [c] {
        assert [x][0] == [c][0];
      }
    }
  }

  /**
   The per-client totals, largest first: one row per client holding the sum
   of that client's amounts; together they hold the whole table's total.
   */
  function ClientTotals(txs: seq<Transaction>): (r: seq<Entry>)
    ensures NonIncreasing(r, AmountOf)
    ensures multiset(r) == multiset(GroupSum(ClientEntries(txs)))
    ensures forall i :: 0 <= i < |r| ==>
              |r[i].key| == 1 && r[i].amount == SumOf(Filter(txs, IsClient(r[i].key[0])), TxAmount)
    ensures forall i :: 0 <= i < |txs| ==> exists j :: 0 <= j < |r| && r[j].key == [txs[i].client]
    ensures Total(r) == SumOf(txs, TxAmount)
  {
    var g := GroupSum(ClientEntries(txs));
    var r := SortDesc(g, AmountOf);
    SortDescSumOf(g, AmountOf, AmountOf);
    SortedClientRows(txs);
    forall i | 0 <= i < |txs| ensures exists j :: 0 <= j < |r| && r[j].key == [txs[i].client] {
      var k := ClientCovered(txs, i);
      assert g[k] in multiset(r);
    }
    r
  }

  /** Each row of the sorted totals is one client's group. */
  lemma SortedClientRows(txs: seq<Transaction>)
    ensures forall i :: 0 <= i < |SortDesc(GroupSum(ClientEntries(txs)), AmountOf)| ==>
              var e := SortDesc(GroupSum(ClientEntries(txs)), AmountOf)[i];
              |e.key| == 1 && e.amount == SumOf(Filter(txs, IsClient(e.key[0])), TxAmount)
  {
    var g := GroupSum(ClientEntries(txs));
    var r := SortDesc(g, AmountOf);
    forall i | 0 <= i < |r|
      ensures |r[i].key| == 1 && r[i].amount == SumOf(Filter(txs, IsClient(r[i].key[0])), TxAmount)
    {
      assert r[i] in multiset(g);
      var k :| 0 <= k < |g| && g[k] == r[i];
      ClientGroup(txs, k);
    }
  }

  /** Every client group has a one-column key and holds the sum of that client's amounts. */
  lemma ClientGroup(txs: seq<Transaction>, k: nat)
    requires k < |GroupSum(ClientEntries(txs))|
    ensures |GroupSum(ClientEntries(txs))[k].key| == 1
    ensures GroupSum(ClientEntries(txs))[k].amount ==
            SumOf(Filter(txs, IsClient(GroupSum(ClientEntries(txs))[k].key[0])), TxAmount)
  {
    var es := ClientEntries(txs);
    var g := GroupSum(es);
    InKeys(g, g[k].key);
    InKeys(es, g[k].key);
    var j :| 0 <= j < |es| && es[j].key == g[k].key;
    assert g[k].key == [txs[j].client];
  }

  /** Every transaction's client has its group. */
  lemma ClientCovered(txs: seq<Transaction>, i: nat) returns (k: nat)
    requires i < |txs|
    ensures k < |GroupSum(ClientEntries(txs))| && GroupSum(ClientEntries(txs))[k].key == [txs[i].client]
  {
    var es := ClientEntries(txs);
    var g := GroupSum(es);
    InKeys(es, es[i].key);
    InKeys(g, es[i].key);
    k :| 0 <= k < |g| && g[k].key == es[i].key;
  }

  // ---------------------------------------------------------------------------
  // Total amount per (city, asset class) pair
  // ---------------------------------------------------------------------------

  /** The amounts of the (city, asset class) pair `(c, a)`, summed; 0 when the pair does not occur. */
  function CellAmount(txs: seq<Transaction>, c: string, a: string): real {
    if |txs| == 0 then 0.0
    else (if txs[0].city == c && txs[0].asset == a then txs[0].amount else 0.0) + CellAmount(txs[1..], c, a)
  }

  /** A cell holds the sum of the amounts of its (city, asset class) transactions. */
  lemma {:induction false} CellAmountIsGroupSum(txs: seq<Transaction>, c: string, a: string)
    ensures CellAmount(txs, c, a) == SumOf(Filter(txs, InCell(c, a)), TxAmount)
    decreases |txs|
  {
    if |txs| > 0 {
      CellAmountIsGroupSum(txs[1..], c, a);
    }
  }

  /** Each transaction as ((city, asset class), amount) for grouping. */
  function CityAssetEntries(txs: seq<Transaction>): (es: seq<Entry>)
    ensures |es| == |txs|
    ensures forall i :: 0 <= i < |txs| ==> es[i].key == [txs[i].city, txs[i].asset]
    ensures Total(es) == SumOf(txs, TxAmount)
    ensures forall c, a :: KeySum(es, [c, a]) == CellAmount(txs, c, a)
  {
    if |txs| == 0 then []
    else
      var rest := CityAssetEntries(txs[1..]);
      var es := [Entry([txs[0].city, txs[0].asset], txs[0].amount)] + rest;
      assert es[1..] == rest;
      assert forall i :: 1 <= i < |txs| ==> txs[i] == txs[1..][i - 1];
      PairKeys(txs[0].city, txs[0].asset);
      es
  }

  /** Two two-column keys are equal exactly when both columns are. */
  lemma PairKeys(x: string, y: string)
    ensures forall c, a :: [x, y] == [c, a] <==> x == c && y == a
  {
    forall c, a ensures [x, y] == [c, a] ==> x == c && y == a {
      if [x, y] == [c, a] {
        assert [x, y][0] == [c, a][0] && [x, y][1] == [c, a][1];
      }
    }
  }

  /**
   One row per (city, asset class) pair that occurs, in ascending order,
   holding the sum of that pair's amounts; the rows add up to the table's
   total.
   */
  function CityAsset(txs: seq<Transaction>): (g: seq<Entry>)
    ensures Ascending(g)
    ensures forall i :: 0 <= i < |g| ==>
              |g[i].key| == 2 && g[i].amount == CellAmount(txs, g[i].key[0], g[i].key[1])
    ensures Total(g) == SumOf(txs, TxAmount)
  {
    var g := GroupSum(CityAssetEntries(txs));
    forall i | 0 <= i < |g|
      ensures |g[i].key| == 2 && g[i].amount == CellAmount(txs, g[i].key[0], g[i].key[1])
    {
      CityAssetGroup(txs, i);
    }
    g
  }

  /** Every group's key is the (city, asset class) pair of some transaction, and its sum is that cell's. */
  lemma CityAssetGroup(txs: seq<Transaction>, i: nat)
    requires i < |GroupSum(CityAssetEntries(txs))|
    ensures |GroupSum(CityAssetEntries(txs))[i].key| == 2
    ensures exists m :: 0 <= m < |txs| &&
              GroupSum(CityAssetEntries(txs))[i].key == [txs[m].city, txs[m].asset] &&
              GroupSum(CityAssetEntries(txs))[i].amount == CellAmount(txs, txs[m].city, txs[m].asset)
  {
    var es := CityAssetEntries(txs);
    var g := GroupSum(es);
    InKeys(g, g[i].key);
    var m := CityAssetKeyOrigin(txs, g[i].key);
    assert g[i].amount == KeySum(es, [txs[m].city, txs[m].asset]);
  }

  /** Every transaction's (city, asset class) pair has its group. */
  lemma CityAssetCovers(txs: seq<Transaction>, m: nat) returns (i: nat)
    requires m < |txs|
    ensures i < |CityAsset(txs)| && CityAsset(txs)[i].key == [txs[m].city, txs[m].asset]
  {
    var es := CityAssetEntries(txs);
    var g := GroupSum(es);
    InKeys(es, es[m].key);
    InKeys(g, es[m].key);
    i :| 0 <= i < |g| && g[i].key == es[m].key;
  }

  /** Every grouping key is the (city, asset class) of some transaction. */
  lemma CityAssetKeyOrigin(txs: seq<Transaction>, k: Key) returns (m: nat)
    requires k in Keys(CityAssetEntries(txs))
    ensures m < |txs| && k == [txs[m].city, txs[m].asset]
  {
    var es := CityAssetEntries(txs);
    InKeys(es, k);
    var i :| 0 <= i < |es| && es[i].key == k;
    m := i;
  }

  // ---------------------------------------------------------------------------
  // City by asset class table of totals, an absent pair counting as 0
  // ---------------------------------------------------------------------------

  /** Labels in strictly ascending order (a sorted index without repeats). */
  predicate StrictlyAscending(s: seq<string>) {
    forall i, j :: 0 <= i < j < |s| ==> StrLess(s[i], s[j])
  }

  /** Adds `x` to a sorted label list unless it is already there. */
  function InsertLevel(x: string, s: seq<string>): (r: seq<string>)
    requires StrictlyAscending(s)
    ensures StrictlyAscending(r)
    ensures forall y :: y in r <==> y == x || y in s
  {
    if |s| == 0 then [x]
    else if x == s[0] then s
    else if StrLess(x, s[0]) then
      assert forall j :: 0 < j < |s| ==> StrLess(x, s[j]) by {
        forall j | 0 < j < |s| ensures StrLess(x, s[j]) {
          StrLessTransitive(x, s[0], s[j]);
        }
      }
      [x] + s
    else
      StrLessTotal(x, s[0]);
      var rest := InsertLevel(x, s[1..]);
      assert forall y :: y in s <==> y == s[0] || y in s[1..];
      assert forall y :: y in rest ==> StrLess(s[0], y);
      [s[0]] + rest
  }

  /** The distinct labels of a column in ascending order (the pivot table's row or column index). */
  function Levels(xs: seq<string>): (r: seq<string>)
    ensures StrictlyAscending(r)
    ensures forall y :: y in r <==> y in xs
  {
    if |xs| == 0 then []
    else
      assert forall y :: y in xs <==> y == xs[0] || y in xs[1..];
      InsertLevel(xs[0], Levels(xs[1..]))
  }

  /** A sorted index holds every label once. */
  lemma AscendingDistinct(s: seq<string>)
    requires StrictlyAscending(s)
    ensures Distinct(s)
  {
    forall i, j | 0 <= i < j < |s| ensures s[i] != s[j] {
      StrLessIrreflexive(s[i]);
    }
  }

  /** The cells of the row for city `c`, as a function of the asset class. */
  function CityRow(txs: seq<Transaction>, c: string): string -> real {
    (a: string) => CellAmount(txs, c, a)
  }

  /** The sorted distinct labels of one column: every row's label, and only those. */
  function LabelsOf(txs: seq<Transaction>, col: Transaction -> string): (r: seq<string>)
    ensures StrictlyAscending(r)
    ensures forall i :: 0 <= i < |txs| ==> col(txs[i]) in r
    ensures forall x :: x in r ==> exists i :: 0 <= i < |txs| && col(txs[i]) == x
  {
    var column := MapRows(txs, col);
    forall x | x in column ensures exists i :: 0 <= i < |txs| && col(txs[i]) == x {
      var i :| 0 <= i < |column| && column[i] == x;
    }
    Levels(column)
  }

  /** The row of city `c`: one cell per listed asset class, the sum of its transactions or 0. */
  function PivotRow(txs: seq<Transaction>, c: string, assets: seq<string>): (row: seq<real>)
    ensures |row| == |assets|
    ensures forall j :: 0 <= j < |assets| ==> row[j] == CellAmount(txs, c, assets[j])
  {
    MapRows(assets, CityRow(txs, c))
  }

  function RowOf(txs: seq<Transaction>, assets: seq<string>): string -> seq<real> {
    (c: string) => PivotRow(txs, c, assets)
  }

  datatype Pivot = Pivot(cities: seq<string>, assets: seq<string>, cells: seq<seq<real>>)

  /**
   The pivot table: one row per city and one column per asset class, both in
   ascending order, each cell the sum of its transactions' amounts or 0.
   */
  function PivotTable(txs: seq<Transaction>): (p: Pivot)
    ensures p.cities == LabelsOf(txs, CityOf) && p.assets == LabelsOf(txs, AssetOf)
    ensures |p.cells| == |p.cities|
    ensures forall i :: 0 <= i < |p.cities| ==> p.cells[i] == PivotRow(txs, p.cities[i], p.assets)
  {
    var cities := LabelsOf(txs, CityOf);
    var assets := LabelsOf(txs, AssetOf);
    Pivot(cities, assets, MapRows(cities, RowOf(txs, assets)))
  }

  /** Summing the values of a rewritten column is summing the rewrite. */
  lemma {:induction false} SumMapRows<T>(xs: seq<T>, f: T -> real)
    ensures Sum(MapRows(xs, f)) == SumOf(xs, f)
    decreases |xs|
  {
    if |xs| > 0 {
      SumMapRows(xs[1..], f);
      assert MapRows(xs, f)[1..] == MapRows(xs[1..], f);
    }
  }

  /** Sums are additive in the summed function. */
  lemma {:induction false} SumOfAdd<T>(xs: seq<T>, f: T -> real, g: T -> real, h: T -> real)
    requires forall x :: h(x) == f(x) + g(x)
    ensures SumOf(xs, h) == SumOf(xs, f) + SumOf(xs, g)
    decreases |xs|
  {
    if |xs| > 0 {
      SumOfAdd(xs[1..], f, g, h);
    }
  }

  /** One transaction's contribution to the cells of its city's row. */
  function Hit(t: Transaction, c: string): string -> real {
    (a: string) => if t.city == c && t.asset == a then t.amount else 0.0
  }

  /** Over distinct labels, a one-hot column sums to its hot value, if the label is present. */
  lemma {:induction false} SumOfHit(assets: seq<string>, t: Transaction, c: string)
    requires Distinct(assets)
    ensures SumOf(assets, Hit(t, c)) == if t.city == c && t.asset in assets then t.amount else 0.0
    decreases |assets|
  {
    if |assets| > 0 {
      assert Distinct(assets[1..]) by {
        forall i, j | 0 <= i < j < |assets[1..]| ensures assets[1..][i] != assets[1..][j] {
          assert assets[1..][i] == assets[i + 1] && assets[1..][j] == assets[j + 1];
        }
      }
      SumOfHit(assets[1..], t, c);
      assert forall y :: y in assets <==> y == assets[0] || y in assets[1..];
      if t.asset == assets[0] {
        assert t.asset !in assets[1..] by {
          forall k | 0 <= k < |assets[1..]| ensures assets[1..][k] != t.asset {
            assert assets[1..][k] == assets[k + 1];
          }
        }
      }
    }
  }

  /**
   Across a list of distinct asset classes that holds every asset class of
   city `c`, that city's cells add up to the city's total.
   */
  lemma {:induction false} CityRowTotal(txs: seq<Transaction>, c: string, assets: seq<string>)
    requires Distinct(assets)
    requires forall i :: 0 <= i < |txs| && txs[i].city == c ==> txs[i].asset in assets
    ensures SumOf(assets, CityRow(txs, c)) == SumOf(Filter(txs, InCity(c)), TxAmount)
    decreases |txs|
  {
    if |txs| == 0 {
      SumOfZero(assets, CityRow(txs, c));
    } else {
      assert forall i :: 1 <= i < |txs| ==> txs[i] == txs[1..][i - 1];
      CityRowTotal(txs[1..], c, assets);
      SumOfAdd(assets, Hit(txs[0], c), CityRow(txs[1..], c), CityRow(txs, c));
      SumOfHit(assets, txs[0], c);
    }
  }

  lemma {:induction false} SumOfZero<T>(xs: seq<T>, f: T -> real)
    requires forall x :: f(x) == 0.0
    ensures SumOf(xs, f) == 0.0
    decreases |xs|
  {
    if |xs| > 0 {
      SumOfZero(xs[1..], f);
    }
  }

  /** A pivot row adds up its cells. */
  lemma SumPivotRow(txs: seq<Transaction>, c: string, assets: seq<string>)
    ensures Sum(PivotRow(txs, c, assets)) == SumOf(assets, CityRow(txs, c))
  {
    SumMapRows(assets, CityRow(txs, c));
  }

  /** Over all asset classes of the table, a city's cells add up to the city's total. */
  lemma CityTotalOverAssets(txs: seq<Transaction>, c: string)
    ensures SumOf(LabelsOf(txs, AssetOf), CityRow(txs, c)) == SumOf(Filter(txs, InCity(c)), TxAmount)
  {
    var assets := LabelsOf(txs, AssetOf);
    AscendingDistinct(assets);
    assert forall k :: 0 <= k < |txs| ==> AssetOf(txs[k]) in assets;
    CityRowTotal(txs, c, assets);
  }

  /** Each row of the pivot table adds up to that city's total over all asset classes. */
  lemma PivotRowTotals(txs: seq<Transaction>, i: nat)
    requires i < |PivotTable(txs).cities|
    ensures Sum(PivotTable(txs).cells[i]) == SumOf(Filter(txs, InCity(PivotTable(txs).cities[i])), TxAmount)
  {
    var p := PivotTable(txs);
    SumPivotRow(txs, p.cities[i], p.assets);
    CityTotalOverAssets(txs, p.cities[i]);
  }

  /**
   Every (city, asset class) group has its row and column in the pivot table,
   and its sum is that cell's amount (see `PivotCell`).
   */
  lemma PivotMatchesCityAsset(txs: seq<Transaction>, k: nat)
    requires k < |CityAsset(txs)|
    ensures exists i, j :: 0 <= i < |LabelsOf(txs, CityOf)| && 0 <= j < |LabelsOf(txs, AssetOf)| &&
              LabelsOf(txs, CityOf)[i] == CityAsset(txs)[k].key[0] &&
              LabelsOf(txs, AssetOf)[j] == CityAsset(txs)[k].key[1] &&
              CityAsset(txs)[k].amount == CellAmount(txs, LabelsOf(txs, CityOf)[i], LabelsOf(txs, AssetOf)[j])
  {
    var g := CityAsset(txs);
    assert g == GroupSum(CityAssetEntries(txs));
    CityAssetGroup(txs, k);
    var m :| 0 <= m < |txs| && g[k].key == [txs[m].city, txs[m].asset] &&
             g[k].amount == CellAmount(txs, txs[m].city, txs[m].asset);
    LabelIndex(txs, CityOf, m);
    LabelIndex(txs, AssetOf, m);
  }

  /** Every transaction's label has a position among the labels of its column. */
  lemma LabelIndex(txs: seq<Transaction>, col: Transaction -> string, m: nat)
    requires m < |txs|
    ensures exists i :: 0 <= i < |LabelsOf(txs, col)| && LabelsOf(txs, col)[i] == col(txs[m])
  {
    assert col(txs[m]) in LabelsOf(txs, col);
  }

  /** A pivot cell holds the amount of its (city, asset class) pair. */
  lemma PivotCell(txs: seq<Transaction>, i: nat, j: nat)
    requires i < |LabelsOf(txs, CityOf)| && j < |LabelsOf(txs, AssetOf)|
    ensures |PivotTable(txs).cells| == |LabelsOf(txs, CityOf)|
    ensures |PivotTable(txs).cells[i]| == |LabelsOf(txs, AssetOf)|
    ensures PivotTable(txs).cells[i][j] == CellAmount(txs, LabelsOf(txs, CityOf)[i], LabelsOf(txs, AssetOf)[j])
  {
  }

  // ---------------------------------------------------------------------------
  // Completed transactions above ten thousand
  // ---------------------------------------------------------------------------

  function IsHighValue(t: Transaction): bool {
    t.status == "Completed" && t.amount > 10000.0
  }

  /**
   The completed transactions strictly above 10,000, in table order: every
   such transaction and nothing else.
   */
  function HighValue(txs: seq<Transaction>): (r: seq<Transaction>)
    ensures IsSubseq(r, txs)
    ensures forall t :: t in r ==> t.status == "Completed" && t.amount > 10000.0
    ensures forall i :: 0 <= i < |txs| && txs[i].status == "Completed" && txs[i].amount > 10000.0 ==> txs[i] in r
    ensures |r| == Count(txs, IsHighValue)
  {
    Filter(txs, IsHighValue)
  }
}

/**
 The deposit-cleaning script: drop exact duplicate rows, turn the amount
 column into numbers and fill the gaps with the median, parse the dates and
 drop the rows whose date does not parse, and title-case the status.

 Date parsing (`pd.to_datetime(..., errors='coerce')`) is a parameter: the
 model only relies on it returning a date or nothing for each raw string.
 */
module Cleaning {
  import opened Base
  import opened FrameOps
  import opened Numeric
  import opened Stats
  import opened Text

  /** A calendar date, as a parsed `deposit_date` holds it. */
  datatype Date = Date(year: int, month: int, day: int)

  /** One row of the deposit table; the date and amount columns change type while cleaning. */
  datatype Deposit<D, A> = Deposit(name: string, date: D, amount: A, status: string)

  /** A row as entered: date text and a mixed number-or-text amount. */
  type RawDeposit = Deposit<string, Cell>

  /** A row after cleaning: a parsed date and a numeric amount. */
  type CleanDeposit = Deposit<Option<Date>, Option<real>>

  /** The amount column. */
  function Amounts<D>(rows: seq<Deposit<D, Cell>>): (col: seq<Cell>)
    ensures |col| == |rows|
    ensures forall i :: 0 <= i < |rows| ==> col[i] == rows[i].amount
  {
    MapRows(rows, (r: Deposit<D, Cell>) => r.amount)
  }

  // ---------------------------------------------------------------------------
  // The four steps, each a row-wise rewrite or a row selection
  // ---------------------------------------------------------------------------

  /** Reads one amount, using `fill` when it does not read as a number. */
  function FillAmount<D>(fill: Option<real>): Deposit<D, Cell> -> Deposit<D, Option<real>> {
    (r: Deposit<D, Cell>) => Deposit(r.name, r.date, if ToNumeric(r.amount).Some? then ToNumeric(r.amount) else fill, r.status)
  }

  /** Step 2: numbers from the amount text, gaps filled with the median of the table's amounts. */
  function CleanDepositAmounts(rows: seq<RawDeposit>): (r: seq<Deposit<string, Option<real>>>)
    ensures |r| == |rows|
    ensures forall i :: 0 <= i < |rows| ==>
              r[i].amount == CleanAmounts(Amounts(rows))[i] &&
              r[i].name == rows[i].name && r[i].date == rows[i].date && r[i].status == rows[i].status
  {
    MapRows(rows, FillAmount(FillValue(Amounts(rows))))
  }

  /** Parses one date with `parse`; a failure leaves the date missing. */
  function ParseDate<A>(parse: string -> Option<Date>): Deposit<string, A> -> Deposit<Option<Date>, A> {
    (r: Deposit<string, A>) => Deposit(r.name, parse(r.date), r.amount, r.status)
  }

  /** Whether the row's date text parses. */
  function DateParses<A>(parse: string -> Option<Date>): Deposit<string, A> -> bool {
    (r: Deposit<string, A>) => parse(r.date).Some?
  }

  /** Whether the row has a date. */
  function Dated<A>(r: Deposit<Option<Date>, A>): bool {
    r.date.Some?
  }

  /** Title-cases the status. */
  function TitleStatus<D, A>(r: Deposit<D, A>): Deposit<D, A> {
    Deposit(r.name, r.date, r.amount, Title(r.status))
  }

  /**
   The whole cleaning script. The median is taken after de-duplication and
   before the undated rows go, so a row dropped for its date still counts
   towards the fill value.
   */
  function CleanDeposits(raw: seq<RawDeposit>, parse: string -> Option<Date>): (r: seq<CleanDeposit>)
    ensures |r| == Count(DropDuplicates(raw), DateParses(parse))
    ensures forall x :: x in r ==> x.date.Some?
    ensures forall x :: x in r ==> Title(x.status) == x.status
  {
    var dedup := DropDuplicates(raw);
    var amounts := CleanDepositAmounts(dedup);
    var dated := Filter(MapRows(amounts, ParseDate(parse)), Dated);
    var result := MapRows(dated, TitleStatus);
    FilterMapRows(amounts, ParseDate(parse), Dated, DateParses(parse));
    FilterMapRows(dedup, FillAmount(FillValue(Amounts(dedup))), DateParses(parse), DateParses(parse));
    assert |dated| == Count(dedup, DateParses(parse));
    forall i | 0 <= i < |result|
      ensures result[i].date.Some? && Title(result[i].status) == result[i].status
    {
      assert dated[i] in dated;
      TitleIdempotent(dated[i].status);
    }
    result
  }

  /** The rewrite one surviving row undergoes. */
  function Rewrite(fill: Option<real>, parse: string -> Option<Date>): RawDeposit -> CleanDeposit {
    (r: RawDeposit) => Deposit(r.name, parse(r.date), if ToNumeric(r.amount).Some? then ToNumeric(r.amount) else fill,
                 Title(r.status))
  }

  /**
   The script is one selection followed by one rewrite: the de-duplicated
   rows whose date parses, in order, each with its amount read or filled,
   its date parsed and its status title-cased.
   */
  lemma CleanDepositsFused(raw: seq<RawDeposit>, parse: string -> Option<Date>)
    ensures CleanDeposits(raw, parse) ==
      MapRows(Filter(DropDuplicates(raw), DateParses(parse)),
              Rewrite(FillValue(Amounts(DropDuplicates(raw))), parse))
  {
    var dedup := DropDuplicates(raw);
    var fill := FillValue(Amounts(dedup));
    var amounts := MapRows(dedup, FillAmount(fill));
    var fa: RawDeposit -> Deposit<string, Option<real>> := FillAmount(fill);
    var pd: Deposit<string, Option<real>> -> CleanDeposit := ParseDate(parse);
    var both: RawDeposit -> CleanDeposit := (r: RawDeposit) => pd(fa(r));
    MapRowsTwice(dedup, fa, pd, both);
    FilterMapRows(dedup, both, Dated, DateParses(parse));
    var kept := Filter(dedup, DateParses(parse));
    MapRowsTwice(kept, both, TitleStatus, Rewrite(fill, parse));
  }

  /**
   Every row whose date parses survives, rewritten (its first copy stands for
   its duplicates); every surviving row is such a rewrite.
   */
  lemma CleanDepositsRows(raw: seq<RawDeposit>, parse: string -> Option<Date>)
    ensures forall x :: x in CleanDeposits(raw, parse) ==>
              exists y :: y in raw && parse(y.date).Some? && x == Rewrite(FillValue(Amounts(DropDuplicates(raw))), parse)(y)
    ensures forall i :: 0 <= i < |raw| && parse(raw[i].date).Some? ==>
              Rewrite(FillValue(Amounts(DropDuplicates(raw))), parse)(raw[i]) in CleanDeposits(raw, parse)
  {
    var p := DateParses(parse);
    CleanDepositsFused(raw, parse);
    DedupMapFilterMembers(raw, p, Rewrite(FillValue(Amounts(DropDuplicates(raw))), parse));
    assert forall y :: p(y) == parse(y.date).Some?;
  }

  /**
   De-duplication compares the raw cells, before the amounts are read: two
   entries of the same deposit whose amounts are written differently both
   stay, and become identical once their amounts are cleaned.
   */
  lemma DedupComparesRawCells(a: RawDeposit, b: RawDeposit)
    requires a.amount != b.amount
    requires a.name == b.name && a.date == b.date && a.status == b.status
    requires ToNumeric(a.amount) == ToNumeric(b.amount)
    ensures DropDuplicates([a, b]) == [a, b]
    ensures CleanDepositAmounts([a, b])[0] == CleanDepositAmounts([a, b])[1]
  {
    DropDuplicatesFromDistinct([a, b], {});
  }
}

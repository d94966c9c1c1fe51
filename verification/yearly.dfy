/** The yearly rollup: rows are grouped by `year = (month - 1) div 12 + 1`,
    groups come out in ascending year order, and each group carries the sums
    of four monthly metrics. */
module Yearly {
  import opened Types
  import opened Helpers
  import opened Projection

  /** One row of the yearly table. */
  datatype YearTotal = YearTotal(year: int, gross: real, newSaleIncome: real,
                                 commission: real, total: real)

  /** The four summed columns. */
  datatype Metric = Gross | NewSale | Commission | Total

  /** Year of a month. The divisor is positive, so Dafny's Euclidean division
      agrees with Python's floor division here. */
  function YearOf(month: int): int
  {
    (month - 1) / 12 + 1
  }

  /** Year `y` is exactly months 12(y - 1) + 1 .. 12y, for every month
      number, as floor division gives. */
  lemma YearOfRange(month: int, y: int)
    ensures YearOf(month) == y <==> 12 * (y - 1) + 1 <= month <= 12 * y
  {
  }

  function Value(r: Row, k: Metric): real
  {
    match k
    case Gross => r.grossPayments
    case NewSale => r.newSaleIncome
    case Commission => r.commission
    case Total => r.total
  }

  function YearValue(t: YearTotal, k: Metric): real
  {
    match k
    case Gross => t.gross
    case NewSale => t.newSaleIncome
    case Commission => t.commission
    case Total => t.total
  }

  /** Sum of metric `k` over the rows that fall in year `y`. */
  function SumInYear(rows: seq<Row>, y: int, k: Metric): real
    decreases |rows|
  {
    if |rows| == 0 then 0.0
    else
      var last := rows[|rows| - 1];
      SumInYear(rows[..|rows| - 1], y, k) + (if YearOf(last.month) == y then Value(last, k) else 0.0)
  }

  /** Some row falls in year `y`. */
  predicate Occurs(rows: seq<Row>, y: int)
  {
    exists i :: 0 <= i < |rows| && YearOf(rows[i].month) == y
  }

  /** The four sums of year `y`. */
  function TotalsFor(rows: seq<Row>, y: int): YearTotal
  {
    YearTotal(y, SumInYear(rows, y, Gross), SumInYear(rows, y, NewSale),
              SumInYear(rows, y, Commission), SumInYear(rows, y, Total))
  }

  /** Earliest year of a non-empty table. */
  function MinYear(rows: seq<Row>): (y: int)
    requires |rows| > 0
    ensures exists i :: 0 <= i < |rows| && YearOf(rows[i].month) == y
    ensures forall i :: 0 <= i < |rows| ==> y <= YearOf(rows[i].month)
    decreases |rows|
  {
    var last := YearOf(rows[|rows| - 1].month);
    if |rows| == 1 then last
    else
      var rest := MinYear(rows[..|rows| - 1]);
      if rest <= last then rest else last
  }

  /** Latest year of a non-empty table. */
  function MaxYear(rows: seq<Row>): (y: int)
    requires |rows| > 0
    ensures exists i :: 0 <= i < |rows| && YearOf(rows[i].month) == y
    ensures forall i :: 0 <= i < |rows| ==> YearOf(rows[i].month) <= y
    decreases |rows|
  {
    var last := YearOf(rows[|rows| - 1].month);
    if |rows| == 1 then last
    else
      var rest := MaxYear(rows[..|rows| - 1]);
      if rest >= last then rest else last
  }

  /** The groups of the years `y..hi` that occur in the table, in order. */
  function Groups(rows: seq<Row>, y: int, hi: int): (g: seq<YearTotal>)
    ensures forall j :: 0 <= j < |g| ==> y <= g[j].year <= hi
    ensures forall j :: 0 <= j < |g| ==> g[j] == TotalsFor(rows, g[j].year)
    ensures forall j, j' :: 0 <= j < j' < |g| ==> g[j].year < g[j'].year
    decreases hi - y
  {
    if y > hi then []
    else (if Occurs(rows, y) then [TotalsFor(rows, y)] else []) + Groups(rows, y + 1, hi)
  }

  /** Only years that occur in the table get a group. */
  lemma {:induction false} GroupsOnlyPresent(rows: seq<Row>, y: int, hi: int, j: int)
    requires 0 <= j < |Groups(rows, y, hi)|
    ensures Occurs(rows, Groups(rows, y, hi)[j].year)
    decreases hi - y
  {
    var rest := Groups(rows, y + 1, hi);
    if Occurs(rows, y) {
      assert Groups(rows, y, hi) == [TotalsFor(rows, y)] + rest;
      if j > 0 {
        GroupsOnlyPresent(rows, y + 1, hi, j - 1);
      }
    } else {
      assert Groups(rows, y, hi) == rest;
      GroupsOnlyPresent(rows, y + 1, hi, j);
    }
  }

  /** Every year of `y..hi` that occurs in the table has its group. */
  lemma {:induction false} GroupsCover(rows: seq<Row>, y: int, hi: int, z: int)
    requires y <= z <= hi && Occurs(rows, z)
    ensures exists j :: 0 <= j < |Groups(rows, y, hi)| && Groups(rows, y, hi)[j].year == z
    decreases hi - y
  {
    var rest := Groups(rows, y + 1, hi);
    if z == y {
      assert Groups(rows, y, hi) == [TotalsFor(rows, y)] + rest;
      assert Groups(rows, y, hi)[0].year == z;
    } else {
      GroupsCover(rows, y + 1, hi, z);
      var j :| 0 <= j < |rest| && rest[j].year == z;
      if Occurs(rows, y) {
        assert Groups(rows, y, hi) == [TotalsFor(rows, y)] + rest;
        assert Groups(rows, y, hi)[j + 1].year == z;
      } else {
        assert Groups(rows, y, hi) == rest;
      }
    }
  }

  /** The yearly table: one entry per year present in the monthly table, in
      ascending order, each holding the sums of that year's rows. */
  function YearlyTotals(rows: seq<Row>): (g: seq<YearTotal>)
    ensures forall j, j' :: 0 <= j < j' < |g| ==> g[j].year < g[j'].year
    ensures forall j :: 0 <= j < |g| ==>
              Occurs(rows, g[j].year) && g[j] == TotalsFor(rows, g[j].year)
    ensures forall y :: Occurs(rows, y) ==> exists j :: 0 <= j < |g| && g[j].year == y
  {
    if |rows| == 0 then []
    else
      var lo := MinYear(rows);
      var hi := MaxYear(rows);
      assert forall y :: Occurs(rows, y) ==> lo <= y <= hi;
      assert forall j :: 0 <= j < |Groups(rows, lo, hi)| ==> Occurs(rows, Groups(rows, lo, hi)[j].year) by {
        forall j | 0 <= j < |Groups(rows, lo, hi)|
          ensures Occurs(rows, Groups(rows, lo, hi)[j].year)
        {
          GroupsOnlyPresent(rows, lo, hi, j);
        }
      }
      assert forall y :: Occurs(rows, y) ==> exists j :: 0 <= j < |Groups(rows, lo, hi)| && Groups(rows, lo, hi)[j].year == y by {
        forall y | Occurs(rows, y)
          ensures exists j :: 0 <= j < |Groups(rows, lo, hi)| && Groups(rows, lo, hi)[j].year == y
        {
          GroupsCover(rows, lo, hi, y);
        }
      }
      Groups(rows, lo, hi)
  }

  // ---------------------------------------------------------------------
  // The yearly table of a projection
  // ---------------------------------------------------------------------

  /** Sum of metric `k` over `rows[lo..hi]`. */
  function SumRange(rows: seq<Row>, lo: int, hi: int, k: Metric): real
    requires 0 <= lo <= hi <= |rows|
    decreases hi - lo
  {
    if lo == hi then 0.0 else SumRange(rows, lo, hi - 1, k) + Value(rows[hi - 1], k)
  }

  function Min(a: int, b: int): int
  {
    if a <= b then a else b
  }

  /** Row `i` of the table holds month `i + 1`. */
  predicate Consecutive(rows: seq<Row>)
  {
    forall i :: 0 <= i < |rows| ==> rows[i].month == i + 1
  }

  /** In a consecutive table, year `y` is the slice of months 12(y-1)+1..12y,
      cut at the end of the table. */
  lemma {:induction false} SumInYearIsSlice(rows: seq<Row>, y: int, k: Metric, j: int)
    requires Consecutive(rows)
    requires 0 <= j <= |rows| && y >= 1
    ensures 0 <= Min(12 * (y - 1), j) <= Min(12 * y, j) <= |rows|
    ensures SumInYear(rows[..j], y, k) == SumRange(rows, Min(12 * (y - 1), j), Min(12 * y, j), k)
    decreases j
  {
    if j > 0 {
      SumInYearIsSlice(rows, y, k, j - 1);
      assert rows[..j][..j - 1] == rows[..j - 1];
      assert rows[..j][j - 1] == rows[j - 1];
      assert YearOf(rows[j - 1].month) == (j - 1) / 12 + 1;
    }
  }

  /** When every year in `y..hi` occurs, the groups are exactly those years. */
  lemma {:induction false} GroupsAllPresent(rows: seq<Row>, y: int, hi: int)
    requires y <= hi + 1
    requires forall z :: y <= z <= hi ==> Occurs(rows, z)
    ensures |Groups(rows, y, hi)| == hi - y + 1
    ensures forall j :: 0 <= j < |Groups(rows, y, hi)| ==> Groups(rows, y, hi)[j].year == y + j
    decreases hi - y
  {
    if y <= hi {
      GroupsAllPresent(rows, y + 1, hi);
    }
  }

  /** A consecutive table of `n > 0` months spans years 1..(n-1) div 12 + 1
      with no gap. */
  lemma ConsecutiveYears(rows: seq<Row>)
    requires Consecutive(rows) && |rows| > 0
    ensures MinYear(rows) == 1
    ensures MaxYear(rows) == (|rows| - 1) / 12 + 1
    ensures forall z :: 1 <= z <= (|rows| - 1) / 12 + 1 ==> Occurs(rows, z)
  {
    var n := |rows|;
    var hi := (n - 1) / 12 + 1;
    assert YearOf(rows[0].month) == 1;
    assert YearOf(rows[n - 1].month) == hi;
    forall i | 0 <= i < n
      ensures 1 <= YearOf(rows[i].month) <= hi
    {
      assert rows[i].month == i + 1;
    }
    forall z | 1 <= z <= hi
      ensures Occurs(rows, z)
    {
      var i := 12 * (z - 1);
      assert 0 <= i < n;
      assert YearOf(rows[i].month) == z;
    }
  }

  lemma YearValueOfTotals(rows: seq<Row>, y: int, k: Metric)
    ensures YearValue(TotalsFor(rows, y), k) == SumInYear(rows, y, k)
  {
  }

  /** Year j + 1 of a consecutive table that reaches into it sums the slice
      of its months. */
  lemma YearSliceSum(rows: seq<Row>, j: int, k: Metric)
    requires Consecutive(rows)
    requires 0 <= j && 12 * j < |rows|
    ensures 12 * j <= Min(12 * j + 12, |rows|) <= |rows|
    ensures SumInYear(rows, j + 1, k) == SumRange(rows, 12 * j, Min(12 * j + 12, |rows|), k)
  {
    var n := |rows|;
    SumInYearIsSlice(rows, j + 1, k, n);
    assert rows[..n] == rows;
    assert Min(12 * j, n) == 12 * j;
  }

  /** Entry `j` of the yearly table `g` holds, for every metric, the sum of
      months 12j+1 .. min(12j+12, |rows|). */
  predicate SumsItsMonths(rows: seq<Row>, g: seq<YearTotal>, j: int)
    requires 0 <= j < |g|
  {
    && 12 * j <= |rows|
    && forall k :: YearValue(g[j], k) == SumRange(rows, 12 * j, Min(12 * j + 12, |rows|), k)
  }

  /** The yearly table of a consecutive table is the run of groups for
      years 1..ceil(n / 12), all of them present. */
  lemma ConsecutiveGroups(rows: seq<Row>)
    requires Consecutive(rows) && |rows| > 0
    ensures YearlyTotals(rows) == Groups(rows, 1, (|rows| + 11) / 12)
    ensures |YearlyTotals(rows)| == (|rows| + 11) / 12
    ensures forall j :: 0 <= j < |YearlyTotals(rows)| ==> YearlyTotals(rows)[j].year == j + 1
  {
    var n := |rows|;
    var hi := (n - 1) / 12 + 1;
    assert (n + 11) / 12 == hi;
    ConsecutiveYears(rows);
    assert YearlyTotals(rows) == Groups(rows, MinYear(rows), MaxYear(rows));
    GroupsAllPresent(rows, 1, hi);
  }

  /** The yearly table of a consecutive monthly table of `n` rows has
      ceil(n / 12) entries, for years 1, 2, ... in order; entry `j` sums months
      12j+1 .. min(12j+12, n). */
  lemma YearlyTotalsOfConsecutive(rows: seq<Row>)
    requires Consecutive(rows)
    ensures |YearlyTotals(rows)| == (|rows| + 11) / 12
    ensures forall j :: 0 <= j < |YearlyTotals(rows)| ==> YearlyTotals(rows)[j].year == j + 1
    ensures forall j :: 0 <= j < |YearlyTotals(rows)| ==> SumsItsMonths(rows, YearlyTotals(rows), j)
  {
    if |rows| > 0 {
      ConsecutiveGroups(rows);
      forall j | 0 <= j < |YearlyTotals(rows)|
        ensures SumsItsMonths(rows, YearlyTotals(rows), j)
      {
        YearEntry(rows, j);
      }
    } else {
      assert YearlyTotals(rows) == [];
    }
  }

  lemma YearEntryIsYear(rows: seq<Row>, j: int)
    requires Consecutive(rows) && |rows| > 0
    requires 0 <= j < |YearlyTotals(rows)|
    ensures YearlyTotals(rows)[j] == TotalsFor(rows, j + 1)
    ensures 12 * j < |rows|
  {
    ConsecutiveGroups(rows);
  }

  lemma YearEntry(rows: seq<Row>, j: int)
    requires Consecutive(rows) && |rows| > 0
    requires 0 <= j < |YearlyTotals(rows)|
    ensures SumsItsMonths(rows, YearlyTotals(rows), j)
  {
    YearEntryIsYear(rows, j);
    var t := TotalsFor(rows, j + 1);
    var lo, hi := 12 * j, Min(12 * j + 12, |rows|);
    forall k: Metric
      ensures YearValue(t, k) == SumRange(rows, lo, hi, k)
    {
      YearValueOfTotals(rows, j + 1, k);
      YearSliceSum(rows, j, k);
    }
  }

  /** The yearly rollup of the projection: ceil(months / 12) years, in
      order, each summing its own (at most twelve) months. */
  lemma YearlyTotalsOfProjection(p: Params)
    ensures |YearlyTotals(ProjectMonths(p))| == (MonthCount(p) + 11) / 12
    ensures forall j :: 0 <= j < |YearlyTotals(ProjectMonths(p))| ==>
              YearlyTotals(ProjectMonths(p))[j].year == j + 1
    ensures forall j :: 0 <= j < |YearlyTotals(ProjectMonths(p))| ==>
              SumsItsMonths(ProjectMonths(p), YearlyTotals(ProjectMonths(p)), j)
  {
    var rows := ProjectMonths(p);
    assert |rows| == MonthCount(p) && Consecutive(rows);
    YearlyTotalsOfConsecutive(rows);
  }
}

/** The row filters of the backend (backend/app/mymodules/filter_functions.py):
    exact match, case-insensitive substring match, and inclusive numeric
    range. The range filter first converts the caller's `year` column to
    integers in place. */
module FilterFunctions {
  import opened Text
  import opened Frames

  const YearColumn := "year"

  /** A boolean mask over rows, as the filters build it from one column. */
  datatype Mask =
    | Equal(column: string, value: Cell)            // df[column] == value
    | ContainsText(column: string, needle: string)  // df[column].str.contains(needle, case=False, na=False)
    | Between(column: string, lo: real, hi: real)   // (df[column] >= lo) & (df[column] <= hi)

  predicate Holds(m: Mask, row: Row) {
    match m
    case Equal(column, value) => SameValue(At(row, column), value)
    case ContainsText(column, needle) =>
      At(row, column).Text? && ContainsIgnoreCase(At(row, column).s, needle)
    case Between(column, lo, hi) =>
      At(row, column).IsNumber() && lo <= At(row, column).Number() <= hi
  }

  /** `df[mask]`: the rows the mask holds of, in table order. A row is kept
      as often as it occurs in the table when the mask holds of it, and never
      otherwise. */
  function Select(rows: seq<Row>, m: Mask): (r: seq<Row>)
    ensures Subsequence(r, rows)
    ensures forall x :: x in r ==> Holds(m, x)
    ensures forall x :: multiset(r)[x] == if Holds(m, x) then multiset(rows)[x] else 0
    decreases |rows|
  {
    if rows == [] then []
    else
      assert rows == [rows[0]] + rows[1..];
      var rest := Select(rows[1..], m);
      if Holds(m, rows[0]) then [rows[0]] + rest else rest
  }

  // ---------------------------------------------------------------------
  // filter_dataframe

  /** The rows whose `column` equals `value`, in their original order. */
  function FilterDataframe(rows: seq<Row>, column: string, value: Cell): (r: seq<Row>)
    ensures Subsequence(r, rows)
    ensures forall x :: x in r ==> SameValue(At(x, column), value)
    ensures forall x :: multiset(r)[x] == if SameValue(At(x, column), value) then multiset(rows)[x] else 0
  {
    Select(rows, Equal(column, value))
  }

  // ---------------------------------------------------------------------
  // filter_contains

  /** The value argument of `filter_contains`: a string or an integer. */
  datatype Arg = SText(text: string) | SInt(n: int) {
    /** Python's `str(value)`. */
    function Str(): string {
      if SText? then text else DecimalString(n)
    }
  }

  /** On `year`, exact equality with the text `str(value)`. On any other
      column, the rows whose cell is text containing `value` with case
      ignored; cells that are not text (missing ones included) never match,
      and a pattern that is not a string is the `TypeError` pandas raises. */
  function FilterContains(rows: seq<Row>, column: string, value: Arg): (r: Result<seq<Row>>)
    ensures column == YearColumn ==> r == Ok(FilterDataframe(rows, YearColumn, Text(value.Str())))
    ensures column != YearColumn ==> (r.Ok? <==> value.SText?)
    ensures r.Ok? ==> Subsequence(r.value, rows)
    ensures column != YearColumn && r.Ok? ==>
      forall x :: multiset(r.value)[x] ==
        if At(x, column).Text? && ContainsIgnoreCase(At(x, column).s, value.text)
        then multiset(rows)[x] else 0
  {
    if column == YearColumn then
      Ok(Select(rows, Equal(YearColumn, Text(value.Str()))))
    else if value.SText? then
      Ok(Select(rows, ContainsText(column, value.text)))
    else
      Err(PatternNotText)
  }

  // ---------------------------------------------------------------------
  // filter_range

  /** Some cell of `column` is text, so comparing the column with a number
      raises `TypeError` in pandas. */
  predicate HasText(rows: seq<Row>, column: string) {
    exists i | 0 <= i < |rows| :: At(rows[i], column).Text?
  }

  /** The range mask `min_value <= cell <= max_value` applied to a table that
      is not changed any more. */
  function RangeRows(rows: seq<Row>, column: string, lo: real, hi: real): (r: Result<seq<Row>>)
    ensures r.Err? <==> HasText(rows, column)
    ensures r.Ok? ==> Subsequence(r.value, rows)
    ensures r.Ok? ==>
      forall x :: multiset(r.value)[x] ==
        if At(x, column).IsNumber() && lo <= At(x, column).Number() <= hi
        then multiset(rows)[x] else 0
  {
    if HasText(rows, column) then Err(CompareWithText)
    else Ok(Select(rows, Between(column, lo, hi)))
  }

  const Int64Min := -0x8000_0000_0000_0000
  const Int64Max := 0x7fff_ffff_ffff_ffff

  /** `n` is a value of the nullable `Int64` column type. */
  predicate FitsInt64(n: int) {
    Int64Min <= n <= Int64Max
  }

  /** A year cell that `astype('Int64')` refuses: a real with a fractional
      part, or a number (or integer text) outside the signed 64-bit range. */
  predicate LossyYear(c: Cell) {
    match c
    case Text(s) => ParseInteger(s).Some? && !FitsInt64(ParseInteger(s).value)
    case Int(n) => !FitsInt64(n)
    case Real(x) => x.Floor as real != x || !FitsInt64(x.Floor)
    case Missing => false
  }

  predicate HasLossyYear(rows: seq<Row>) {
    exists i | 0 <= i < |rows| :: LossyYear(At(rows[i], YearColumn))
  }

  /** `pd.to_numeric(errors='coerce').astype('Int64')` on one cell: text that
      spells an integer becomes that integer, other text (such as "N.V.")
      becomes missing, whole reals become integers. */
  function ToNumeric(c: Cell): (r: Cell)
    requires !LossyYear(c)
    ensures r.Int? || r.Missing?
    ensures r.Int? ==> FitsInt64(r.i)
    ensures c.IsNumber() ==> r.Int? && r.Number() == c.Number()
  {
    match c
    case Text(s) => (match ParseInteger(s) case Some(n) => Int(n) case None => Missing)
    case Int(n) => Int(n)
    case Real(x) => Int(x.Floor)
    case Missing => Missing
  }

  /** The table after `df['year'] = pd.to_numeric(df['year'], ...)`. A year
      that is a number keeps its value as an integer; year text becomes the
      integer it spells, or missing when it spells none; a missing year stays
      missing. Length, order and every other column are unchanged. */
  function CoerceYears(rows: seq<Row>): (r: seq<Row>)
    requires !HasLossyYear(rows)
    ensures |r| == |rows|
    ensures forall i :: 0 <= i < |r| ==> YearColumn in r[i]
    ensures forall i :: 0 <= i < |r| ==> r[i][YearColumn].Int? || r[i][YearColumn].Missing?
    ensures forall i :: 0 <= i < |r| && At(rows[i], YearColumn).IsNumber() ==>
      r[i][YearColumn].Int? && r[i][YearColumn].Number() == At(rows[i], YearColumn).Number()
    ensures forall i :: 0 <= i < |r| && At(rows[i], YearColumn).Text? ==>
      (r[i][YearColumn].Int? <==> ParseInteger(At(rows[i], YearColumn).s).Some?) &&
      (r[i][YearColumn].Int? ==> ParseInteger(At(rows[i], YearColumn).s) == Some(r[i][YearColumn].i))
    ensures forall i :: 0 <= i < |r| && At(rows[i], YearColumn).Missing? ==> r[i][YearColumn] == Missing
    ensures forall i, k :: 0 <= i < |r| && k != YearColumn ==>
      (k in r[i] <==> k in rows[i]) && At(r[i], k) == At(rows[i], k)
  {
    seq(|rows|, i requires 0 <= i < |rows| => rows[i][YearColumn := ToNumeric(At(rows[i], YearColumn))])
  }

  /** `filter_range`: on `year`, first overwrite the caller's year column with
      its integer conversion (or raise, changing nothing, when a year is a
      real with a fractional part or lies outside the 64-bit range); then keep the rows whose cell lies in
      `[lo, hi]`, both ends included. */
  method FilterRange(df: DataFrame, column: string, lo: real, hi: real) returns (r: Result<seq<Row>>)
    modifies df
    ensures column == YearColumn && HasLossyYear(old(df.rows)) ==>
      r == Err(LossyCast) && df.rows == old(df.rows)
    ensures column == YearColumn && !HasLossyYear(old(df.rows)) ==>
      df.rows == CoerceYears(old(df.rows)) && r == RangeRows(df.rows, column, lo, hi)
    ensures column != YearColumn ==>
      df.rows == old(df.rows) && r == RangeRows(df.rows, column, lo, hi)
  {
    if column == YearColumn {
      if HasLossyYear(df.rows) {
        return Err(LossyCast);
      }
      df.rows := CoerceYears(df.rows);
    }
    r := RangeRows(df.rows, column, lo, hi);
  }

  // ---------------------------------------------------------------------
  // Properties

  lemma {:induction false} SelectIdempotent(rows: seq<Row>, m: Mask)
    ensures Select(Select(rows, m), m) == Select(rows, m)
    decreases |rows|
  {
    if rows != [] {
      SelectIdempotent(rows[1..], m);
    }
  }

  /** Filtering the result of `filter_dataframe` again by the same column
      and value changes nothing. */
  lemma FilterDataframeIdempotent(rows: seq<Row>, column: string, value: Cell)
    ensures FilterDataframe(FilterDataframe(rows, column, value), column, value)
         == FilterDataframe(rows, column, value)
  {
    SelectIdempotent(rows, Equal(column, value));
  }

  /** Two masks true of the same rows select the same rows. */
  lemma {:induction false} SelectCongruent(rows: seq<Row>, m1: Mask, m2: Mask)
    requires forall x :: Holds(m1, x) == Holds(m2, x)
    ensures Select(rows, m1) == Select(rows, m2)
    decreases |rows|
  {
    if rows != [] {
      SelectCongruent(rows[1..], m1, m2);
    }
  }

  /** Two masks applied one after the other select the same rows in either
      order. The filter functions around the masks do not all commute: see
      `RangeRaisesBeforeNotAfter` and `YearRangeThenContainsFindsNothing`. */
  lemma {:induction false} SelectCommutes(rows: seq<Row>, m1: Mask, m2: Mask)
    ensures Select(Select(rows, m1), m2) == Select(Select(rows, m2), m1)
    decreases |rows|
  {
    if rows != [] {
      SelectCommutes(rows[1..], m1, m2);
    }
  }

  /** Two masks applied in sequence only narrow the table: the result is an
      order-preserving subsequence, never longer. The range filter on `year`
      is not such a mask, since it returns rows with converted years. */
  lemma ChainedFiltersNarrow(rows: seq<Row>, m1: Mask, m2: Mask)
    ensures Subsequence(Select(Select(rows, m1), m2), rows)
    ensures |Select(Select(rows, m1), m2)| <= |rows|
  {
    var once := Select(rows, m1);
    var twice := Select(once, m2);
    SubsequenceTransitive(twice, once, rows);
    SubsequenceShorter(twice, rows);
  }

  /** The substring filter does not depend on the case of the pattern. */
  lemma FilterContainsCaseInsensitive(rows: seq<Row>, column: string, needle: string)
    requires column != YearColumn
    ensures FilterContains(rows, column, SText(UpperAll(needle)))
         == FilterContains(rows, column, SText(needle))
  {
    forall x
      ensures Holds(ContainsText(column, UpperAll(needle)), x) == Holds(ContainsText(column, needle), x)
    {
      if At(x, column).Text? {
        ContainsCaseInsensitive(At(x, column).s, needle);
      }
    }
    SelectCongruent(rows, ContainsText(column, UpperAll(needle)), ContainsText(column, needle));
  }

  /** On `year` the contains filter is exact equality, not a substring test:
      a "2015" vintage is not found by the pattern "01", which the substring
      test on another column holding the same text does find. */
  lemma YearContainsIsExact()
    ensures FilterContains([map[YearColumn := Text("2015")]], YearColumn, SText("01")) == Ok([])
    ensures FilterContains([map["name" := Text("2015")]], "name", SText("01"))
         == Ok([map["name" := Text("2015")]])
  {
    var row := map["name" := Text("2015")];
    assert LowerAll("2015") == "2015";
    assert LowerAll("01") == "01";
    assert FactorAt("01", "2015", 1);
    assert Holds(ContainsText("name", "01"), row);
    assert [row][1..] == [];
    assert "name" != YearColumn;
    assert Select([row], ContainsText("name", "01")) == [row];
  }

  /** A range whose lower end exceeds its upper end selects no row. */
  lemma RangeInvertedIsEmpty(rows: seq<Row>, column: string, lo: real, hi: real)
    requires lo > hi
    ensures RangeRows(rows, column, lo, hi).Ok? ==> RangeRows(rows, column, lo, hi).value == []
  {
  }

  /** After the year conversion no year cell is text, so the year range
      filter never raises. */
  lemma YearRangeNeverRaises(rows: seq<Row>, lo: real, hi: real)
    requires !HasLossyYear(rows)
    ensures RangeRows(CoerceYears(rows), YearColumn, lo, hi).Ok?
  {
  }

  /** A non-vintage row (its year text is not an integer) loses its year to
      a missing value, and is never returned by the year range filter. */
  lemma NonVintageNeverInRange(rows: seq<Row>, i: int, lo: real, hi: real)
    requires !HasLossyYear(rows)
    requires 0 <= i < |rows|
    requires At(rows[i], YearColumn).Text? && ParseInteger(At(rows[i], YearColumn).s).None?
    ensures CoerceYears(rows)[i][YearColumn] == Missing
    ensures CoerceYears(rows)[i] !in RangeRows(CoerceYears(rows), YearColumn, lo, hi).value
  {
  }

  /** A vintage row whose year text is the decimal rendering of `y` gets the
      integer `y`, and it is returned exactly when `lo <= y <= hi`. The same
      row is found by the contains filter with the year `y` itself. */
  lemma VintageInRange(rows: seq<Row>, i: int, y: int, lo: real, hi: real)
    requires !HasLossyYear(rows)
    requires 0 <= i < |rows|
    requires At(rows[i], YearColumn) == Text(DecimalString(y))
    ensures CoerceYears(rows)[i][YearColumn] == Int(y)
    ensures CoerceYears(rows)[i] in RangeRows(CoerceYears(rows), YearColumn, lo, hi).value
        <==> lo <= y as real <= hi
    ensures rows[i] in FilterContains(rows, YearColumn, SInt(y)).value
  {
    ParseDecimalString(y);
    YearRangeNeverRaises(rows, lo, hi);
    var c := CoerceYears(rows);
    assert At(c[i], YearColumn) == Int(y);
    var r := RangeRows(c, YearColumn, lo, hi).value;
    assert multiset(c)[c[i]] > 0;
    if lo <= y as real <= hi {
      assert multiset(r)[c[i]] > 0;
    }
    var f := FilterContains(rows, YearColumn, SInt(y)).value;
    assert multiset(rows)[rows[i]] > 0;
    assert multiset(f)[rows[i]] > 0;
  }

  /** Converting the years of a converted table changes nothing, so a
      second `filter_range` on `year` over the same table sees the same
      years as the first. */
  lemma CoerceYearsIdempotent(rows: seq<Row>)
    requires !HasLossyYear(rows)
    ensures !HasLossyYear(CoerceYears(rows))
    ensures CoerceYears(CoerceYears(rows)) == CoerceYears(rows)
  {
    var c := CoerceYears(rows);
    assert !HasLossyYear(c);
    var c2 := CoerceYears(c);
    forall i | 0 <= i < |c| ensures c2[i] == c[i] {
      assert c2[i] == c[i][YearColumn := ToNumeric(c[i][YearColumn])];
    }
  }

  /** `filter_range` raises on a text cell that an earlier `filter_dataframe`
      removes, so the order of the two filters matters. */
  lemma RangeRaisesBeforeNotAfter()
    ensures var red := map["type" := Text("red"), "price" := Text("n/a")];
            var white := map["type" := Text("white"), "price" := Int(5)];
      && RangeRows([red, white], "price", 0.0, 10.0).Err?
      && RangeRows(FilterDataframe([red, white], "type", Text("white")), "price", 0.0, 10.0) == Ok([white])
  {
    var red := map["type" := Text("red"), "price" := Text("n/a")];
    var white := map["type" := Text("white"), "price" := Int(5)];
    assert At([red, white][0], "price").Text?;
    assert [red, white][1..] == [white];
    assert [white][1..] == [];
    assert Select([red, white], Equal("type", Text("white"))) == [white];
    assert !HasText([white], "price");
    assert Select([white], Between("price", 0.0, 10.0)) == [white];
  }

  /** After `filter_range` on `year` has rewritten the caller's years to
      integers, `filter_contains` on `year`, which compares with text, finds
      nothing; on the table before the rewrite it finds the row. */
  lemma YearRangeThenContainsFindsNothing(y: int)
    requires FitsInt64(y)
    ensures var rows := [map[YearColumn := Text(DecimalString(y))]];
      && FilterContains(rows, YearColumn, SInt(y)) == Ok(rows)
      && !HasLossyYear(rows)
      && FilterContains(CoerceYears(rows), YearColumn, SInt(y)) == Ok([])
  {
    ParseDecimalString(y);
    var row := map[YearColumn := Text(DecimalString(y))];
    var rows := [row];
    assert rows[1..] == [];
    assert Select(rows, Equal(YearColumn, Text(DecimalString(y)))) == rows;
    assert !LossyYear(At(rows[0], YearColumn));
    var c := CoerceYears(rows);
    assert c[0][YearColumn] == Int(y);
    assert c[1..] == [];
    assert Select(c, Equal(YearColumn, Text(DecimalString(y)))) == [];
  }
}

/** The table the backend works on: a sequence of rows, each row a map from
    column name to cell. A `DataFrame` object holds a table that code may
    change in place, as pandas column assignment does. */
module Frames {

  /** One cell: text, an integer, a real number, or missing (NaN / <NA>). */
  datatype Cell = Text(s: string) | Int(i: int) | Real(r: real) | Missing {

    predicate IsNumber() {
      Int? || Real?
    }

    /** The numeric value of an integer or real cell. */
    function Number(): real
      requires IsNumber()
    {
      if Int? then i as real else r
    }
  }

  type Row = map<string, Cell>

  /** The cell of `row` in `column`. A column the row does not have reads as
      missing, as it does after `pd.concat` of tables with different columns. */
  function At(row: Row, column: string): Cell {
    if column in row then row[column] else Missing
  }

  /** pandas' elementwise `==` between a cell and a value: text equals text
      with the same characters, a number equals a number of the same value
      (an integer and a real may be equal), and a missing cell equals nothing. */
  predicate SameValue(c: Cell, v: Cell) {
    if c.Text? && v.Text? then c.s == v.s
    else c.IsNumber() && v.IsNumber() && c.Number() == v.Number()
  }

  /** The exceptions pandas raises on the paths this model follows. */
  datatype Error =
    | PatternNotText   // `str.contains` given a pattern that is not a string
    | CompareWithText  // `>=` / `<=` between a text cell and a number
    | LossyCast        // `astype("Int64")` of a fractional real or a number outside 64 bits

  datatype Result<T> = Ok(value: T) | Err(error: Error)

  /** A table that is changed in place. */
  class DataFrame {
    var rows: seq<Row>

    constructor (rows: seq<Row>)
      ensures this.rows == rows
    {
      this.rows := rows;
    }
  }

  // ---------------------------------------------------------------------
  // Order-preserving subsequences

  /** `r` can be obtained from `s` by deleting rows, keeping the order. */
  ghost predicate Subsequence(r: seq<Row>, s: seq<Row>)
    decreases |s|
  {
    if r == [] then true
    else if s == [] then false
    else (r[0] == s[0] && Subsequence(r[1..], s[1..])) || Subsequence(r, s[1..])
  }

  lemma {:induction false} SubsequenceShorter(r: seq<Row>, s: seq<Row>)
    requires Subsequence(r, s)
    ensures |r| <= |s|
    decreases |s|
  {
    if r != [] {
      if r[0] == s[0] && Subsequence(r[1..], s[1..]) {
        SubsequenceShorter(r[1..], s[1..]);
      } else {
        SubsequenceShorter(r, s[1..]);
      }
    }
  }

  /** Deleting rows twice is deleting rows once: filters may be chained. */
  lemma {:induction false} SubsequenceTransitive(q: seq<Row>, r: seq<Row>, s: seq<Row>)
    requires Subsequence(q, r) && Subsequence(r, s)
    ensures Subsequence(q, s)
    decreases |s|
  {
    if q != [] {
      assert r != [] && s != [];
      if r[0] == s[0] && Subsequence(r[1..], s[1..]) {
        if q[0] == r[0] && Subsequence(q[1..], r[1..]) {
          SubsequenceTransitive(q[1..], r[1..], s[1..]);
        } else {
          SubsequenceTransitive(q, r[1..], s[1..]);
        }
      } else {
        SubsequenceTransitive(q, r, s[1..]);
      }
    }
  }
}

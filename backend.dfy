/** Start-up and the `/top-wines` handler of the API (backend/app/main.py):
    each of the four per-type tables gets a `type` column written into it,
    the four are concatenated into the wine table, and the handler returns
    its top-rated rows. Reading the CSV files is left to the caller, who
    passes the four tables in. */
module Backend {
  import opened Frames
  import opened Utils

  const TypeColumn := "type"

  datatype WineType = Red | Rose | Sparkling | White {
    /** The text written into the `type` column. */
    function Name(): string {
      match this
      case Red => "red"
      case Rose => "rose"
      case Sparkling => "sparkling"
      case White => "white"
    }
  }

  /** The cell is one of the four type names. */
  ghost predicate IsTypeName(c: Cell) {
    exists t: WineType :: c == Text(t.Name())
  }

  /** `out` is `src` with its `type` column set to `t`: every other column is
      present in one exactly when it is in the other, with the same cell. */
  ghost predicate TaggedFrom(out: Row, src: Row, t: WineType) {
    && TypeColumn in out && out[TypeColumn] == Text(t.Name())
    && (forall k :: k != TypeColumn ==> (k in out <==> k in src))
    && (forall k :: k in src && k != TypeColumn ==> out[k] == src[k])
  }

  /** The table after `df["type"] = t`. */
  function Tagged(rows: seq<Row>, t: WineType): (r: seq<Row>)
    ensures |r| == |rows|
    ensures forall i :: 0 <= i < |r| ==> TaggedFrom(r[i], rows[i], t)
  {
    seq(|rows|, i requires 0 <= i < |rows| => rows[i][TypeColumn := Text(t.Name())])
  }

  /** `pd.concat([df_red, df_rose, df_sparkling, df_white])` of the tagged tables. */
  function Merge(red: seq<Row>, rose: seq<Row>, sparkling: seq<Row>, white: seq<Row>): seq<Row> {
    Tagged(red, Red) + Tagged(rose, Rose) + Tagged(sparkling, Sparkling) + Tagged(white, White)
  }

  /** `df["type"] = t`: the column assignment changes the table in place. */
  method AssignType(df: DataFrame, t: WineType)
    modifies df
    ensures df.rows == Tagged(old(df.rows), t)
  {
    df.rows := Tagged(df.rows, t);
  }

  /** Module start-up: tag each table, then concatenate them in the fixed
      order red, rose, sparkling, white. The four tables are distinct objects,
      each read from its own file. */
  method Startup(red: DataFrame, rose: DataFrame, sparkling: DataFrame, white: DataFrame)
    returns (wines: seq<Row>)
    requires red != rose && red != sparkling && red != white
    requires rose != sparkling && rose != white && sparkling != white
    modifies red, rose, sparkling, white
    ensures red.rows == Tagged(old(red.rows), Red)
    ensures rose.rows == Tagged(old(rose.rows), Rose)
    ensures sparkling.rows == Tagged(old(sparkling.rows), Sparkling)
    ensures white.rows == Tagged(old(white.rows), White)
    ensures wines == Merge(old(red.rows), old(rose.rows), old(sparkling.rows), old(white.rows))
  {
    AssignType(red, Red);
    AssignType(rose, Rose);
    AssignType(sparkling, Sparkling);
    AssignType(white, White);
    wines := red.rows + rose.rows + sparkling.rows + white.rows;
  }

  /** `GET /top-wines?limit=...`: the top-rated rows of the wine table,
      ten unless a limit is given. */
  function GetMostRatedWines(wines: seq<Row>, limit: int := DefaultLimit): (r: seq<Row>)
    requires RatingsComparable(wines)
    ensures r == TopWinesByRating(wines, limit)
    ensures SortedByRating(r) && multiset(r) <= multiset(wines)
    ensures limit >= 0 ==> |r| == if limit < |wines| then limit else |wines|
  {
    TopWinesByRating(wines, limit)
  }

  // ---------------------------------------------------------------------
  // Properties

  /** The wine table has as many rows as the four tables together. */
  lemma MergeLength(red: seq<Row>, rose: seq<Row>, sparkling: seq<Row>, white: seq<Row>)
    ensures |Merge(red, rose, sparkling, white)| == |red| + |rose| + |sparkling| + |white|
  {
  }

  /** All red rows come first, then rose, then sparkling, then white, each
      block in its input order, and each row differs from its source row in
      its `type` column only. */
  lemma MergeBlocks(red: seq<Row>, rose: seq<Row>, sparkling: seq<Row>, white: seq<Row>)
    ensures var m := Merge(red, rose, sparkling, white);
      && (forall i :: 0 <= i < |red| ==> TaggedFrom(m[i], red[i], Red))
      && (forall i :: 0 <= i < |rose| ==> TaggedFrom(m[|red| + i], rose[i], Rose))
      && (forall i :: 0 <= i < |sparkling| ==>
            TaggedFrom(m[|red| + |rose| + i], sparkling[i], Sparkling))
      && (forall i :: 0 <= i < |white| ==>
            TaggedFrom(m[|red| + |rose| + |sparkling| + i], white[i], White))
  {
    var m := Merge(red, rose, sparkling, white);
    var a, b, c, d := Tagged(red, Red), Tagged(rose, Rose), Tagged(sparkling, Sparkling), Tagged(white, White);
    assert m == a + b + c + d;
    forall i | 0 <= i < |rose| ensures m[|red| + i] == b[i] { }
    forall i | 0 <= i < |sparkling| ensures m[|red| + |rose| + i] == c[i] { }
    forall i | 0 <= i < |white| ensures m[|red| + |rose| + |sparkling| + i] == d[i] { }
  }

  /** Every row of the wine table has one of the four type names. */
  lemma MergeTypes(red: seq<Row>, rose: seq<Row>, sparkling: seq<Row>, white: seq<Row>)
    ensures forall x :: x in Merge(red, rose, sparkling, white) ==> IsTypeName(At(x, TypeColumn))
  {
  }

  /** Tagging leaves every rating as it was, so each rating of the wine
      table comes from one of the four tables. */
  lemma MergeKeepsRatings(red: seq<Row>, rose: seq<Row>, sparkling: seq<Row>, white: seq<Row>)
    requires RatingsComparable(red) && RatingsComparable(rose)
    requires RatingsComparable(sparkling) && RatingsComparable(white)
    ensures RatingsComparable(Merge(red, rose, sparkling, white))
  {
  }

  /** What `/top-wines` returns is drawn from the wine table, sorted by
      rating, and every row in it carries one of the four type names. */
  lemma TopWinesOfMerge(red: seq<Row>, rose: seq<Row>, sparkling: seq<Row>, white: seq<Row>, limit: int)
    requires RatingsComparable(red) && RatingsComparable(rose)
    requires RatingsComparable(sparkling) && RatingsComparable(white)
    ensures RatingsComparable(Merge(red, rose, sparkling, white))
    ensures var r := GetMostRatedWines(Merge(red, rose, sparkling, white), limit);
      && SortedByRating(r)
      && (forall x :: x in r ==> IsTypeName(At(x, TypeColumn)))
  {
    var m := Merge(red, rose, sparkling, white);
    MergeKeepsRatings(red, rose, sparkling, white);
    MergeTypes(red, rose, sparkling, white);
    var r := GetMostRatedWines(m, limit);
    forall x | x in r ensures IsTypeName(At(x, TypeColumn)) {
      assert x in multiset(r);
      assert x in multiset(m);
    }
  }
}

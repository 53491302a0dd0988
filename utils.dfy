/** Top-rated selection (backend/app/mymodules/utils.py): sort the table by
    `Rating`, highest first and missing ratings last, then keep the first
    `limit` rows. */
module Utils {
  import opened Frames

  const RatingColumn := "Rating"
  const DefaultLimit := 10

  /** The ratings of the table are numbers or missing, so that pandas can
      order them. */
  predicate RatingsComparable(rows: seq<Row>) {
    forall i :: 0 <= i < |rows| ==> !At(rows[i], RatingColumn).Text?
  }

  /** `a` may come before `b` in a descending sort: `b` has no rating, or
      both have one and `a`'s is at least `b`'s. */
  predicate Precedes(a: Row, b: Row) {
    var x, y := At(a, RatingColumn), At(b, RatingColumn);
    !y.IsNumber() || (x.IsNumber() && x.Number() >= y.Number())
  }

  predicate SortedByRating(s: seq<Row>) {
    forall i, j :: 0 <= i < j < |s| ==> Precedes(s[i], s[j])
  }

  lemma PrecedesTotal(a: Row, b: Row)
    ensures Precedes(a, b) || Precedes(b, a)
  {
  }

  lemma PrecedesTransitive(a: Row, b: Row, c: Row)
    requires Precedes(a, b) && Precedes(b, c)
    ensures Precedes(a, c)
  {
  }

  /** Puts `x` into `s` before the first row it precedes. */
  function Insert(x: Row, s: seq<Row>): (r: seq<Row>)
    ensures multiset(r) == multiset(s) + multiset{x}
    decreases |s|
  {
    if s == [] then [x]
    else if Precedes(x, s[0]) then [x] + s
    else
      assert s == [s[0]] + s[1..];
      [s[0]] + Insert(x, s[1..])
  }

  /** `a` precedes every row of `s`. */
  predicate Leads(a: Row, s: seq<Row>) {
    forall j :: 0 <= j < |s| ==> Precedes(a, s[j])
  }

  lemma ConsSorted(a: Row, s: seq<Row>)
    requires Leads(a, s) && SortedByRating(s)
    ensures SortedByRating([a] + s)
  {
  }

  /** A row that leads `s` and precedes `x` leads any arrangement of `s` and `x`. */
  lemma LeadsPermutation(a: Row, x: Row, s: seq<Row>, r: seq<Row>)
    requires Leads(a, s) && Precedes(a, x)
    requires multiset(r) == multiset(s) + multiset{x}
    ensures Leads(a, r)
  {
    forall j | 0 <= j < |r| ensures Precedes(a, r[j]) {
      assert r[j] in multiset(r);
      if r[j] != x {
        assert r[j] in multiset(s);
        var k :| 0 <= k < |s| && s[k] == r[j];
      }
    }
  }

  /** Inserting into a sorted sequence keeps it sorted. */
  lemma {:induction false} InsertSorted(x: Row, s: seq<Row>)
    requires SortedByRating(s)
    ensures SortedByRating(Insert(x, s))
    decreases |s|
  {
    if s == [] {
    } else if Precedes(x, s[0]) {
      forall j | 0 <= j < |s| ensures Precedes(x, s[j]) {
        if j > 0 {
          PrecedesTransitive(x, s[0], s[j]);
        }
      }
      ConsSorted(x, s);
    } else {
      var rest := Insert(x, s[1..]);
      InsertSorted(x, s[1..]);
      PrecedesTotal(x, s[0]);
      assert Leads(s[0], s[1..]) by {
        forall j | 0 <= j < |s[1..]| ensures Precedes(s[0], s[1..][j]) {
          assert s[1..][j] == s[1 + j];
        }
      }
      LeadsPermutation(s[0], x, s[1..], rest);
      ConsSorted(s[0], rest);
    }
  }

  /** The table in descending rating order, missing ratings last. Rows with
      equal ratings keep no particular order in pandas; this definition
      picks one, and nothing below depends on it. */
  function SortByRating(s: seq<Row>): (r: seq<Row>)
    ensures multiset(r) == multiset(s)
    ensures SortedByRating(r)
    decreases |s|
  {
    if s == [] then []
    else
      assert s == [s[0]] + s[1..];
      InsertSorted(s[0], SortByRating(s[1..]));
      Insert(s[0], SortByRating(s[1..]))
  }

  /** `DataFrame.head(n)`: the first `n` rows, or all but the last `-n`
      rows when `n` is negative. */
  function Head(s: seq<Row>, n: int): (r: seq<Row>)
    ensures n >= 0 ==> |r| == if n < |s| then n else |s|
    ensures n < 0 ==> |r| == if |s| + n > 0 then |s| + n else 0
    ensures r == s[..|r|]
  {
    if n >= 0 then s[..if n < |s| then n else |s|]
    else s[..if |s| + n > 0 then |s| + n else 0]
  }

  /** `top_wines_by_rating(df_wines, limit=10)`. */
  function TopWinesByRating(rows: seq<Row>, limit: int := DefaultLimit): (r: seq<Row>)
    requires RatingsComparable(rows)
    ensures SortedByRating(r)
    ensures multiset(r) <= multiset(rows)
    ensures limit >= 0 ==> |r| == if limit < |rows| then limit else |rows|
  {
    var sorted := SortByRating(rows);
    var r := Head(sorted, limit);
    assert sorted == r + sorted[|r|..];
    r
  }

  // ---------------------------------------------------------------------
  // Properties

  /** In a sorted sequence, every row of a prefix precedes every row after it. */
  lemma SortedPrefixDominates(s: seq<Row>, k: int)
    requires SortedByRating(s)
    requires 0 <= k <= |s|
    ensures forall y, x :: y in s[..k] && x in s[k..] ==> Precedes(y, x)
  {
  }

  /** Every row left out ranks no higher than any row returned. */
  lemma TopWinesDominate(rows: seq<Row>, limit: int)
    requires RatingsComparable(rows)
    ensures forall y, x ::
      (y in TopWinesByRating(rows, limit) && x in multiset(rows) - multiset(TopWinesByRating(rows, limit)))
      ==> Precedes(y, x)
  {
    var sorted := SortByRating(rows);
    var r := TopWinesByRating(rows, limit);
    var k := |r|;
    assert r == sorted[..k];
    assert sorted == r + sorted[k..];
    assert multiset(rows) - multiset(r) == multiset(sorted[k..]);
    SortedPrefixDominates(sorted, k);
    forall y, x | y in r && x in multiset(rows) - multiset(r)
      ensures Precedes(y, x)
    {
      assert x in sorted[k..];
    }
  }

  /** A rated wine ranks above every wine whose rating is missing: the
      result holds no unrated wine while a rated one is left out. */
  lemma TopWinesRatedFirst(rows: seq<Row>, limit: int, y: Row, x: Row)
    requires RatingsComparable(rows)
    requires y in TopWinesByRating(rows, limit)
    requires x in multiset(rows) - multiset(TopWinesByRating(rows, limit))
    requires At(x, RatingColumn).IsNumber()
    ensures At(y, RatingColumn).IsNumber()
    ensures At(y, RatingColumn).Number() >= At(x, RatingColumn).Number()
  {
    TopWinesDominate(rows, limit);
  }

  /** With a negative `limit`, `head` drops that many rows from the end. */
  lemma TopWinesNegativeLimit(rows: seq<Row>, limit: int)
    requires RatingsComparable(rows)
    requires limit < 0
    ensures |TopWinesByRating(rows, limit)| == if |rows| + limit > 0 then |rows| + limit else 0
  {
    assert |SortByRating(rows)| == |multiset(SortByRating(rows))| == |rows|;
  }

  /** Without a `limit`, at most ten rows come back. */
  lemma TopWinesDefaultLimit(rows: seq<Row>)
    requires RatingsComparable(rows)
    ensures |TopWinesByRating(rows)| == if |rows| < 10 then |rows| else 10
  {
  }

  /** The best-rated wine of the table comes first. */
  lemma TopWinesFirstIsBest(rows: seq<Row>, limit: int)
    requires RatingsComparable(rows)
    requires limit > 0 && |rows| > 0
    ensures forall x :: x in rows ==> Precedes(TopWinesByRating(rows, limit)[0], x)
  {
    var sorted := SortByRating(rows);
    forall x | x in rows ensures Precedes(sorted[0], x) {
      assert x in multiset(sorted);
      var j :| 0 <= j < |sorted| && sorted[j] == x;
      if j == 0 {
        assert Precedes(x, x);
      }
    }
  }
}

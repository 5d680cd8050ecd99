/** The whole-table statistics computed over the scored rows: mean score,
    number of reviews, and the fit metric 1 - res / tot, where res sums the
    squared differences between each score and the row's approval rating and
    tot sums the squared differences between each score and the mean. */
module Statistics {
  import opened Options
  import opened Reviews

  /** All rows carry the same score (vacuously true of an empty table). */
  predicate SameScore(rows: seq<Record>) {
    forall i, j :: 0 <= i < |rows| && 0 <= j < |rows| ==> rows[i].score == rows[j].score
  }

  /** Sum of the score column. */
  function SumScores(rows: seq<Record>): real {
    if |rows| == 0 then 0.0 else rows[0].score + SumScores(rows[1..])
  }

  /** The score sum of a concatenation is the sum of the parts' sums. */
  lemma {:induction false} SumScoresAppend(a: seq<Record>, b: seq<Record>)
    ensures SumScores(a + b) == SumScores(a) + SumScores(b)
  {
    if |a| == 0 {
      assert a + b == b;
    } else {
      assert (a + b)[1..] == a[1..] + b;
      SumScoresAppend(a[1..], b);
    }
  }

  /** If every score exceeds `c`, the sum exceeds |rows| copies of `c`. */
  lemma {:induction false} SumAbove(rows: seq<Record>, c: real)
    requires |rows| > 0
    requires forall i :: 0 <= i < |rows| ==> rows[i].score > c
    ensures SumScores(rows) > |rows| as real * c
  {
    if |rows| > 1 {
      SumAbove(rows[1..], c);
    }
  }

  /** If every score is below `c`, the sum is below |rows| copies of `c`. */
  lemma {:induction false} SumBelow(rows: seq<Record>, c: real)
    requires |rows| > 0
    requires forall i :: 0 <= i < |rows| ==> rows[i].score < c
    ensures SumScores(rows) < |rows| as real * c
  {
    if |rows| > 1 {
      SumBelow(rows[1..], c);
    }
  }

  /** The mean score; undefined for a table without rows. */
  function Mean(rows: seq<Record>): (m: Option<real>)
    ensures m.None? <==> |rows| == 0
    ensures m.Some? ==> m.value * |rows| as real == SumScores(rows)
  {
    if |rows| == 0 then None else Some(SumScores(rows) / |rows| as real)
  }

  /** The mean lies between the smallest and the largest score: some score is
      at most the mean and some score is at least the mean. */
  lemma MeanBetweenScores(rows: seq<Record>)
    requires |rows| > 0
    ensures exists i :: 0 <= i < |rows| && rows[i].score <= Mean(rows).value
    ensures exists j :: 0 <= j < |rows| && rows[j].score >= Mean(rows).value
  {
    var m := Mean(rows).value;
    if forall i :: 0 <= i < |rows| ==> rows[i].score > m {
      SumAbove(rows, m);
      assert false;
    }
    if forall j :: 0 <= j < |rows| ==> rows[j].score < m {
      SumBelow(rows, m);
      assert false;
    }
  }

  /** Any common bound of the scores bounds the mean. */
  lemma MeanBounded(rows: seq<Record>, lo: real, hi: real)
    requires |rows| > 0
    requires forall i :: 0 <= i < |rows| ==> lo <= rows[i].score <= hi
    ensures lo <= Mean(rows).value <= hi
  {
    MeanBetweenScores(rows);
  }

  /** Real multiplication behind a name: the solver rewrites a bare square
      compared with zero into a disequality it then fails to use, so the
      sign facts below are stated about this function instead. */
  function Product(a: real, b: real): real {
    a * b
  }

  lemma ProductPositive(a: real, b: real)
    requires a > 0.0 && b > 0.0
    ensures Product(a, b) > 0.0
  {
  }

  /** The square of a difference, zero exactly when the difference is. */
  function Sq(d: real): (s: real)
    ensures s >= 0.0
    ensures s == 0.0 <==> d == 0.0
  {
    if d > 0.0 then
      ProductPositive(d, d);
      Product(d, d)
    else if d < 0.0 then
      ProductPositive(-d, -d);
      assert Product(d, d) == Product(-d, -d);
      Product(d, d)
    else Product(d, d)
  }

  /** The squared difference between a row's score and its approval rating;
      a row without a rating contributes nothing, as a NaN-skipping sum does. */
  function ResTerm(r: Record): (t: real)
    ensures t >= 0.0
    ensures t == 0.0 <==> Approval(r).None? || r.score == Approval(r).value
  {
    match Approval(r)
    case None => 0.0
    case Some(a) => Sq(r.score - a)
  }

  /** Sum of squared differences between score and approval rating over the
      rows whose rating is defined. */
  function Res(rows: seq<Record>): (res: real)
    ensures res >= 0.0
    ensures res == 0.0 <==> forall i :: 0 <= i < |rows| ==>
      Approval(rows[i]).None? || rows[i].score == Approval(rows[i]).value
  {
    if |rows| == 0 then 0.0 else ResTerm(rows[0]) + Res(rows[1..])
  }

  /** res of a concatenation is the sum of the parts' res. */
  lemma {:induction false} ResAppend(a: seq<Record>, b: seq<Record>)
    ensures Res(a + b) == Res(a) + Res(b)
  {
    if |a| == 0 {
      assert a + b == b;
    } else {
      assert (a + b)[1..] == a[1..] + b;
      ResAppend(a[1..], b);
    }
  }

  /** A row without an approval rating can be removed from a table without
      changing res. */
  lemma ResSkipsUnrated(a: seq<Record>, x: Record, b: seq<Record>)
    requires Approval(x).None?
    ensures Res(a + [x] + b) == Res(a + b)
  {
    ResAppend(a + [x], b);
    ResAppend(a, [x]);
    ResAppend(a, b);
    assert Res([x]) == 0.0;
  }

  /** Sum of squared differences between each score and a centre `m`. */
  function SumSqDev(rows: seq<Record>, m: real): (s: real)
    ensures s >= 0.0
    ensures s == 0.0 <==> forall i :: 0 <= i < |rows| ==> rows[i].score == m
  {
    if |rows| == 0 then 0.0
    else Sq(rows[0].score - m) + SumSqDev(rows[1..], m)
  }

  /** The total sum of squares: squared deviations from the mean over every
      row, rated or not. A table without rows sums to zero. */
  function Tot(rows: seq<Record>): (t: real)
    ensures t >= 0.0
    ensures t == 0.0 <==> SameScore(rows)
  {
    match Mean(rows)
    case None => 0.0
    case Some(m) =>
      MeanBetweenScores(rows);
      SumSqDev(rows, m)
  }

  /** The fit metric 1 - res / tot; undefined when tot is zero. */
  function R2(rows: seq<Record>): (r2: Option<real>)
    ensures r2.None? <==> SameScore(rows)
    ensures r2.Some? ==> r2.value <= 1.0
    ensures r2.Some? ==> (r2.value == 1.0 <==> Res(rows) == 0.0)
    ensures r2.Some? ==> (r2.value < 0.0 <==> Res(rows) > Tot(rows))
  {
    var tot := Tot(rows);
    if tot == 0.0 then None
    else
      var res := Res(rows);
      var fit := 1.0 - res / tot;
      FitFacts(res, tot, fit);
      Some(fit)
  }

  /** Facts about 1 - res / tot for a non-negative res and a positive tot. */
  lemma FitFacts(res: real, tot: real, fit: real)
    requires res >= 0.0 && tot > 0.0
    requires fit == 1.0 - res / tot
    ensures fit <= 1.0
    ensures fit == 1.0 <==> res == 0.0
    ensures fit < 0.0 <==> res > tot
  {
    var q := res / tot;
    assert q * tot == res;
    if res > tot {
      assert q > 1.0;
    }
    if q > 1.0 {
      assert q * tot > tot;
    }
  }
}

/** The statistics tab as one batch transform: from the loaded review table
    to the scored rows, their approval ratings and the aggregate figures. */
module Pipeline {
  import opened Options
  import opened Reviews
  import opened Statistics

  /** Everything the presentation layer reads. `r2` is None where the
      original's float arithmetic yields no finite number. */
  datatype Report = Report(
    scored: seq<Record>,
    approvals: seq<Option<real>>,
    count: nat,
    mean: Option<real>,
    res: real,
    tot: real,
    r2: Option<real>)

  /** Drops the unscored rows, then derives every statistic from the rest. */
  function Analyze(table: seq<Record>): (rep: Report)
    ensures forall i :: 0 <= i < |rep.scored| ==> Scored(rep.scored[i])
    ensures forall x :: x in rep.scored <==> x in table && Scored(x)
    ensures rep.count == |rep.scored| == |ScoredIndices(table)| <= |table|
    ensures |rep.approvals| == rep.count
    ensures rep.mean.None? <==> forall i :: 0 <= i < |table| ==> !Scored(table[i])
    ensures rep.res >= 0.0 && rep.tot >= 0.0
    ensures rep.r2.None? <==> SameScore(rep.scored)
    ensures rep.r2.Some? ==> rep.r2.value <= 1.0
  {
    var kept := FilterScored(table);
    FilterCount(table);
    NoScoredIndices(table);
    Report(kept, Approvals(kept), |kept|, Mean(kept), Res(kept), Tot(kept), R2(kept))
  }

  /** A table has no scored position exactly when no row is scored. */
  lemma NoScoredIndices(table: seq<Record>)
    ensures ScoredIndices(table) == {} <==> forall i :: 0 <= i < |table| ==> !Scored(table[i])
  {
    if ScoredIndices(table) == {} {
      forall i | 0 <= i < |table|
        ensures !Scored(table[i])
      {
        assert i !in ScoredIndices(table);
      }
    }
  }

  /** Running the statistics again on the rows they kept reproduces the same
      report: the kept rows are a fixed point of the pipeline. */
  lemma {:induction false} AnalyzeIdempotent(table: seq<Record>)
    ensures Analyze(Analyze(table).scored) == Analyze(table)
  {
    FilterIdempotent(table);
  }

  /** The kept rows of a table with one row inserted: the row joins the kept
      rows at the same place when it is scored. */
  lemma {:induction false} KeptWithInserted(a: seq<Record>, x: Record, b: seq<Record>)
    requires Scored(x)
    ensures Analyze(a + [x] + b).scored == FilterScored(a) + [x] + FilterScored(b)
    ensures Analyze(a + b).scored == FilterScored(a) + FilterScored(b)
  {
    FilterAppend(a + [x], b);
    FilterAppend(a, [x]);
    FilterAppend(a, b);
    assert FilterScored([x]) == [x];
  }

  /** Rows with neither likes nor dislikes stay in the count and in the score
      sum behind the mean, but contribute nothing to res. */
  lemma {:induction false} UnratedRowsOnlyLeaveRes(a: seq<Record>, x: Record, b: seq<Record>)
    requires Scored(x) && Approval(x).None?
    ensures Analyze(a + [x] + b).count == Analyze(a + b).count + 1
    ensures SumScores(Analyze(a + [x] + b).scored) == SumScores(Analyze(a + b).scored) + x.score
    ensures Analyze(a + [x] + b).res == Analyze(a + b).res
  {
    KeptWithInserted(a, x, b);
    var ka, kb := FilterScored(a), FilterScored(b);
    ResSkipsUnrated(ka, x, kb);
    SumScoresAppend(ka + [x], kb);
    SumScoresAppend(ka, [x]);
    SumScoresAppend(ka, kb);
    assert SumScores([x]) == x.score;
  }

  /** A scored row, rated or not, enters tot: next to any other scored row
      with a different score it makes tot positive. */
  lemma {:induction false} InsertedRowEntersTot(a: seq<Record>, x: Record, b: seq<Record>, y: Record)
    requires Scored(x)
    requires y in a + b && Scored(y) && y.score != x.score
    ensures Analyze(a + [x] + b).tot > 0.0
  {
    KeptWithInserted(a, x, b);
    var ka, kb := FilterScored(a), FilterScored(b);
    assert y in ka + kb;
    var rows := ka + [x] + kb;
    assert x == rows[|ka|];
    var j :| 0 <= j < |ka + kb| && (ka + kb)[j] == y;
    var k := if j < |ka| then j else j + 1;
    assert rows[k] == y;
    assert !SameScore(rows);
  }

  /** Three rows, the middle one unscored. */
  function SampleTable(): seq<Record> {
    [ Record("first", 8.0, 90, 10),
      Record("second", -1.0, 5, 5),
      Record("third", 6.0, 40, 60) ]
  }

  /** Worked figures for the sample: two reviews, approvals 0.9 and 0.4, mean
      7, tot 2, res 81.77 and a fit metric of -39.885. */
  lemma {:induction false} SampleReport()
    ensures Analyze(SampleTable()) == Report(
      [Record("first", 8.0, 90, 10), Record("third", 6.0, 40, 60)],
      [Some(0.9), Some(0.4)],
      2, Some(7.0), 81.77, 2.0, Some(-39.885))
  {
    var t := SampleTable();
    var kept := [t[0], t[2]];
    assert FilterScored(t) == kept by {
      assert t[1..] == [t[1], t[2]];
      assert t[1..][1..] == [t[2]];
      assert FilterScored(t[1..]) == [t[2]];
    }
    assert kept[1..] == [t[2]];
    assert SumScores(kept) == 14.0;
    assert Approval(t[0]) == Some(0.9);
    assert Approval(t[2]) == Some(0.4);
    assert Res(kept) == 81.77;
    assert SumSqDev(kept, 7.0) == 2.0;
  }

  /** A scored row without votes: it counts toward the mean and tot, its
      approval rating is undefined, and res covers the other row only. */
  lemma {:induction false} UnratedSampleReport()
    ensures Analyze([Record("quiet", 8.0, 0, 0), Record("loud", 6.0, 40, 60)]) == Report(
      [Record("quiet", 8.0, 0, 0), Record("loud", 6.0, 40, 60)],
      [None, Some(0.4)],
      2, Some(7.0), 31.36, 2.0, Some(-14.68))
  {
    var t := [Record("quiet", 8.0, 0, 0), Record("loud", 6.0, 40, 60)];
    assert t[1..] == [t[1]];
    FilterKeepsScoredTable(t);
    assert SumScores(t) == 14.0;
    assert Approval(t[1]) == Some(0.4);
    assert Res(t) == 31.36;
    assert SumSqDev(t, 7.0) == 2.0;
  }

  /** Equal scores leave tot at zero and the fit metric undefined, while the
      mean is still reported. Here res is positive, so the original's float
      division shows minus infinity; the model reports it as None. */
  lemma EqualScoresSampleReport()
    ensures Analyze([Record("a", 5.0, 1, 1), Record("b", 5.0, 3, 0)]).r2 == None
    ensures Analyze([Record("a", 5.0, 1, 1), Record("b", 5.0, 3, 0)]).mean == Some(5.0)
    ensures Analyze([Record("a", 5.0, 1, 1), Record("b", 5.0, 3, 0)]).tot == 0.0
    ensures Analyze([Record("a", 5.0, 1, 1), Record("b", 5.0, 3, 0)]).res == 36.25
  {
    var t := [Record("a", 5.0, 1, 1), Record("b", 5.0, 3, 0)];
    assert t[1..] == [t[1]];
    FilterKeepsScoredTable(t);
    assert SumScores(t) == 10.0;
  }
}

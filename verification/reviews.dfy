/** The review table and the two row-level steps of the statistics pipeline:
    dropping the rows that have not been scored yet, and the approval rating
    that is derived for every remaining row. */
module Reviews {
  import opened Options

  /** One row of the review dataset. `title` stands for every column that the
      statistics only pass through (video id, normalised title, rating, view
      count, publication date). */
  datatype Record = Record(title: string, score: real, likes: nat, dislikes: nat)

  /** The score value that marks a game whose review has not been scored. */
  const Sentinel: real := -1.0

  predicate Scored(r: Record) {
    r.score != Sentinel
  }

  /** Positions of the scored rows of a table: a description of what the
      filter keeps that does not mention the filter. */
  function ScoredIndices(table: seq<Record>): set<nat> {
    set i: nat | i < |table| && Scored(table[i])
  }

  /** The table restricted to its scored rows. */
  function FilterScored(table: seq<Record>): (kept: seq<Record>)
    ensures |kept| <= |table|
    ensures forall i :: 0 <= i < |kept| ==> Scored(kept[i])
    ensures forall x :: x in kept <==> x in table && Scored(x)
  {
    if |table| == 0 then []
    else (if Scored(table[0]) then [table[0]] else []) + FilterScored(table[1..])
  }

  /** Filtering a concatenation filters each part in place: the kept rows
      stay in their original relative order. */
  lemma {:induction false} FilterAppend(a: seq<Record>, b: seq<Record>)
    ensures FilterScored(a + b) == FilterScored(a) + FilterScored(b)
  {
    if |a| == 0 {
      assert a + b == b;
    } else {
      assert (a + b)[1..] == a[1..] + b;
      FilterAppend(a[1..], b);
    }
  }

  /** A table whose rows are all scored passes the filter unchanged. */
  lemma {:induction false} FilterKeepsScoredTable(table: seq<Record>)
    requires forall i :: 0 <= i < |table| ==> Scored(table[i])
    ensures FilterScored(table) == table
  {
    if |table| > 0 {
      FilterKeepsScoredTable(table[1..]);
    }
  }

  /** A table with no scored row filters to the empty table. */
  lemma {:induction false} FilterDropsUnscoredTable(table: seq<Record>)
    requires forall i :: 0 <= i < |table| ==> !Scored(table[i])
    ensures FilterScored(table) == []
  {
    if |table| > 0 {
      FilterDropsUnscoredTable(table[1..]);
    }
  }

  /** Applying the filter a second time changes nothing. */
  lemma {:induction false} FilterIdempotent(table: seq<Record>)
    ensures FilterScored(FilterScored(table)) == FilterScored(table)
  {
    FilterKeepsScoredTable(FilterScored(table));
  }

  /** Appending a row adds its position to the scored positions exactly when
      it is scored. */
  lemma ScoredIndicesSnoc(init: seq<Record>, last: Record)
    ensures Scored(last) ==> ScoredIndices(init + [last]) == ScoredIndices(init) + {|init|}
    ensures !Scored(last) ==> ScoredIndices(init + [last]) == ScoredIndices(init)
    ensures |init| !in ScoredIndices(init)
  {
    var t := init + [last];
    forall i: nat | i < |init|
      ensures t[i] == init[i]
    {
    }
  }

  /** The number of kept rows is the number of scored positions of the input. */
  lemma {:induction false} FilterCount(table: seq<Record>)
    ensures |FilterScored(table)| == |ScoredIndices(table)|
    ensures |ScoredIndices(table)| <= |table|
  {
    if |table| == 0 {
      assert ScoredIndices(table) == {};
    } else {
      var init := table[..|table| - 1];
      var last := table[|table| - 1];
      assert table == init + [last];
      FilterAppend(init, [last]);
      FilterCount(init);
      ScoredIndicesSnoc(init, last);
    }
  }

  /** The approval rating likes / (likes + dislikes) of one row; undefined
      when the row has neither likes nor dislikes. */
  function Approval(r: Record): (a: Option<real>)
    ensures a.None? <==> r.likes == 0 && r.dislikes == 0
    ensures a.Some? ==> 0.0 <= a.value <= 1.0
    ensures a.Some? ==> a.value * (r.likes + r.dislikes) as real == r.likes as real
  {
    if r.likes + r.dislikes == 0 then None
    else Some(r.likes as real / (r.likes + r.dislikes) as real)
  }

  /** The rating is exactly 1 for rows with likes only, and exactly 0 for
      rows with dislikes only. */
  lemma ApprovalExtremes(r: Record)
    ensures Approval(r) == Some(1.0) <==> r.likes > 0 && r.dislikes == 0
    ensures Approval(r) == Some(0.0) <==> r.likes == 0 && r.dislikes > 0
  {
    var total := (r.likes + r.dislikes) as real;
    if r.likes > 0 && r.dislikes == 0 {
      assert total == r.likes as real;
      assert r.likes as real / total == 1.0;
    }
    if Approval(r) == Some(1.0) {
      assert 1.0 * total == r.likes as real;
    }
  }

  /** The approval-rating column of a table, one entry per row in row order. */
  function Approvals(rows: seq<Record>): (col: seq<Option<real>>)
    ensures |col| == |rows|
    ensures forall i :: 0 <= i < |rows| ==> col[i] == Approval(rows[i])
    ensures forall i :: 0 <= i < |rows| ==>
      (col[i].None? <==> rows[i].likes == 0 && rows[i].dislikes == 0)
  {
    seq(|rows|, i requires 0 <= i < |rows| => Approval(rows[i]))
  }
}

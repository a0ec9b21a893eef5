/** The selection half of `match_jobs`: copy the job table, add a `score`
    column, sort it by descending score and keep the first `top_k` rows.
    The scores themselves (cosine similarity of placeholder embeddings) are
    an input here: one value per job row, in row order. */
module Ranking {
  import opened Records

  /** The `top_k` that `match_jobs` uses when none is given. */
  const DefaultTopK: int := 3

  /** The copied table with the score column added: row `i` keeps its label
      `i`, its job fields and gets the `i`-th score. */
  function WithScores(jobs: seq<Job>, scores: seq<real>): (rows: seq<RankedJob>)
    requires |scores| == |jobs|
    ensures |rows| == |jobs|
    ensures forall i :: 0 <= i < |rows| ==> rows[i] == RankedJob(i, jobs[i], scores[i])
  {
    seq(|jobs|, i requires 0 <= i < |jobs| => RankedJob(i, jobs[i], scores[i]))
  }

  /** Scores never go up from one row to a later one. */
  predicate NonIncreasing(rows: seq<RankedJob>) {
    forall i, j :: 0 <= i < j < |rows| ==> rows[i].score >= rows[j].score
  }

  /** No row label occurs twice. */
  predicate DistinctLabels(rows: seq<RankedJob>) {
    forall i, j :: 0 <= i < j < |rows| ==> rows[i].index != rows[j].index
  }

  /** The row labels present in a table. */
  function Labels(rows: seq<RankedJob>): set<nat> {
    set i | 0 <= i < |rows| :: rows[i].index
  }

  /** Puts `x` into a table already in descending score order. */
  function Insert(x: RankedJob, rows: seq<RankedJob>): (r: seq<RankedJob>)
    requires NonIncreasing(rows)
    ensures NonIncreasing(r)
    ensures multiset(r) == multiset(rows) + multiset{x}
  {
    if rows == [] then [x]
    else if x.score >= rows[0].score then
      assert forall k | 0 <= k < |rows| :: x.score >= rows[k].score;
      [x] + rows
    else
      var tail := Insert(x, rows[1..]);
      assert forall k | 0 <= k < |tail| :: rows[0].score >= tail[k].score by {
        forall k | 0 <= k < |tail| ensures rows[0].score >= tail[k].score {
          assert tail[k] in multiset(rows[1..]) + multiset{x};
          if tail[k] != x {
            assert tail[k] in rows[1..];
          }
        }
      }
      assert rows == [rows[0]] + rows[1..];
      [rows[0]] + tail
  }

  /** `sort_values("score", ascending=False)`: the same rows, in descending
      score order. Which of several equally scored rows comes first is not
      part of the contract, since pandas' default sort is not stable. */
  function SortByScore(rows: seq<RankedJob>): (r: seq<RankedJob>)
    ensures NonIncreasing(r)
    ensures multiset(r) == multiset(rows)
  {
    if rows == [] then []
    else
      assert rows == [rows[0]] + rows[1..];
      Insert(rows[0], SortByScore(rows[1..]))
  }

  lemma {:induction false} InsertKeepsLabelsDistinct(x: RankedJob, rows: seq<RankedJob>)
    requires NonIncreasing(rows) && DistinctLabels(rows)
    requires forall k :: 0 <= k < |rows| ==> rows[k].index != x.index
    ensures DistinctLabels(Insert(x, rows))
  {
    if rows != [] && x.score < rows[0].score {
      var tail := Insert(x, rows[1..]);
      InsertKeepsLabelsDistinct(x, rows[1..]);
      forall k | 0 <= k < |tail| ensures tail[k].index != rows[0].index {
        assert tail[k] in multiset(rows[1..]) + multiset{x};
        if tail[k] != x {
          assert tail[k] in rows[1..];
        }
      }
    }
  }

  /** Sorting never duplicates a row. */
  lemma {:induction false} SortKeepsLabelsDistinct(rows: seq<RankedJob>)
    requires DistinctLabels(rows)
    ensures DistinctLabels(SortByScore(rows))
  {
    if rows != [] {
      var sorted := SortByScore(rows[1..]);
      SortKeepsLabelsDistinct(rows[1..]);
      forall k | 0 <= k < |sorted| ensures sorted[k].index != rows[0].index {
        assert sorted[k] in multiset(rows[1..]);
        var p :| 0 <= p < |rows[1..]| && rows[1..][p] == sorted[k];
        assert rows[p + 1].index != rows[0].index;
      }
      InsertKeepsLabelsDistinct(rows[0], sorted);
    }
  }

  /** How many rows `head(n)` keeps of a table of `size` rows: the first `n`
      when `n` is not negative, otherwise all but the last `-n`. */
  function HeadCount(size: nat, n: int): (c: nat)
    ensures c <= size
    ensures 0 <= n ==> c <= n && (c == n || c == size)
    ensures n < 0 ==> c - n >= size && (c == 0 || c - n == size)
  {
    if n >= 0 then (if n <= size then n else size)
    else if size + n >= 0 then size + n
    else 0
  }

  /** `match_jobs` with the scores given: the `top_k` best-scoring rows of
      the copied table, best first. */
  function MatchJobs(jobs: seq<Job>, scores: seq<real>, topK: int): (r: seq<RankedJob>)
    requires |scores| == |jobs|
    ensures topK >= 0 ==> |r| == if topK <= |jobs| then topK else |jobs|
    ensures topK < 0 ==> |r| == if |jobs| + topK >= 0 then |jobs| + topK else 0
    ensures NonIncreasing(r)
    ensures DistinctLabels(r)
    ensures forall i :: 0 <= i < |r| ==>
              r[i].index < |jobs| && r[i].job == jobs[r[i].index] && r[i].score == scores[r[i].index]
  {
    var rows := WithScores(jobs, scores);
    var sorted := SortByScore(rows);
    assert |sorted| == |rows| by {
      assert |multiset(sorted)| == |multiset(rows)|;
    }
    SortKeepsLabelsDistinct(rows);
    forall y | y in sorted ensures y.index < |jobs| && y.job == jobs[y.index] && y.score == scores[y.index] {
      assert y in multiset(rows);
    }
    sorted[..HeadCount(|sorted|, topK)]
  }

  /** `match_jobs(cv, jobs)` called without `top_k`: the default of three
      rows, or the whole table when it is shorter. */
  function MatchJobsDefault(jobs: seq<Job>, scores: seq<real>): (r: seq<RankedJob>)
    requires |scores| == |jobs|
    ensures r == MatchJobs(jobs, scores, DefaultTopK)
    ensures |r| == if |jobs| >= 3 then 3 else |jobs|
  {
    MatchJobs(jobs, scores, DefaultTopK)
  }

  /** In a descending table, a row past the first `n` scores no higher than
      any of the first `n`. */
  lemma LeftOutScoresLower(sorted: seq<RankedJob>, n: nat, x: RankedJob, i: nat)
    requires NonIncreasing(sorted) && i < n <= |sorted| && x in sorted[n..]
    ensures x.score <= sorted[i].score
  {
    var q :| 0 <= q < |sorted[n..]| && sorted[n..][q] == x;
    assert sorted[n + q] == x;
  }

  /** Every row left out scores no higher than any row kept: the result is
      a top-`top_k` selection and not just some descending rows. */
  lemma MatchJobsKeepsBest(jobs: seq<Job>, scores: seq<real>, topK: int)
    requires |scores| == |jobs|
    ensures forall i, j :: (0 <= i < |MatchJobs(jobs, scores, topK)| && 0 <= j < |jobs| &&
                            j !in Labels(MatchJobs(jobs, scores, topK))) ==>
              scores[j] <= MatchJobs(jobs, scores, topK)[i].score
  {
    var rows := WithScores(jobs, scores);
    var sorted := SortByScore(rows);
    var r := MatchJobs(jobs, scores, topK);
    var n := |r|;
    assert |sorted| == |rows| by {
      assert |multiset(sorted)| == |multiset(rows)|;
    }
    assert r == sorted[..n];
    assert sorted == r + sorted[n..];
    forall i, j | 0 <= i < n && 0 <= j < |jobs| && j !in Labels(r)
      ensures scores[j] <= r[i].score
    {
      var x := rows[j];
      assert x in multiset(sorted);
      assert forall m | 0 <= m < n :: r[m].index in Labels(r);
      assert x !in r;
      assert x in sorted[n..];
      LeftOutScoresLower(sorted, n, x, i);
    }
  }

  /** With `top_k` at least the table's size, every row comes back: the
      result is the whole table, reordered. */
  lemma MatchJobsWholeTable(jobs: seq<Job>, scores: seq<real>, topK: int)
    requires |scores| == |jobs| && topK >= |jobs|
    ensures multiset(MatchJobs(jobs, scores, topK)) == multiset(WithScores(jobs, scores))
    ensures forall j :: 0 <= j < |jobs| ==> j in Labels(MatchJobs(jobs, scores, topK))
  {
    var rows := WithScores(jobs, scores);
    var sorted := SortByScore(rows);
    var r := MatchJobs(jobs, scores, topK);
    assert |sorted| == |rows| by {
      assert |multiset(sorted)| == |multiset(rows)|;
    }
    assert r == sorted;
    forall j | 0 <= j < |jobs| ensures j in Labels(r) {
      assert rows[j] in multiset(r);
      var p :| 0 <= p < |r| && r[p] == rows[j];
      assert r[p].index == j;
    }
  }

  /** When the input's `job_id`s are unique, so are the result's. */
  lemma MatchJobsUniqueIds(jobs: seq<Job>, scores: seq<real>, topK: int)
    requires |scores| == |jobs| && UniqueJobIds(jobs)
    ensures forall i, j :: 0 <= i < j < |MatchJobs(jobs, scores, topK)| ==>
              MatchJobs(jobs, scores, topK)[i].job.jobId != MatchJobs(jobs, scores, topK)[j].job.jobId
  {
    var r := MatchJobs(jobs, scores, topK);
    forall i, j | 0 <= i < j < |r| ensures r[i].job.jobId != r[j].job.jobId {
      var a, b := r[i].index, r[j].index;
      assert a != b;
      if a < b {
        assert jobs[a].jobId != jobs[b].jobId;
      } else {
        assert jobs[b].jobId != jobs[a].jobId;
      }
    }
  }
}

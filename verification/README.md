# Review statistics of Reviewing-Game-Reviews, in Dafny

The dashboard of Reviewing-Game-Reviews loads a table of game-review videos
(score, likes, dislikes and pass-through columns such as the title) and shows
three figures: the average review score, the number of reviews, and an
"R²" fit metric that compares each score with the video's approval rating.
This project models that statistics pipeline as pure functions over
`seq<Record>` and proves what it computes.

- `options.dfy` — `Options.Option`, used wherever the original's float
  arithmetic yields NaN.
- `reviews.dfy` — the record, the sentinel filter (score `-1` means "not yet
  scored") and the per-row approval rating `likes / (likes + dislikes)`.
- `statistics.dfy` — mean score, `res` (sum of squared differences between
  score and approval rating, skipping rows whose rating is undefined, as a
  NaN-skipping sum does), `tot` (sum of squared deviations of the score from
  the mean, over every kept row) and `r2 = 1 - res / tot`.
- `pipeline.dfy` — the whole transform as `Analyze`, its idempotence, the
  effect of a row with no votes, and a worked sample.

Scores are `real`; likes and dislikes are `nat`. Float arithmetic is
replaced by exact rational arithmetic, and each NaN the original can produce
becomes `None`: the approval rating of a row with no votes, the mean of an
empty table, and `r2` when `tot` is zero (where the original shows NaN or,
when `res` is positive, minus infinity). The metric is kept exactly as the
code writes it: the approval rating is used directly as the prediction of
the score, so this is not a regression coefficient of determination, and it
can be far below zero (the worked sample gives -39.885).

The sums do not all run over the same rows: `res` skips the rows with no
votes (their approval rating is NaN, which the sum skips), while the mean
and `tot` include every kept row. `Pipeline.UnratedRowsOnlyLeaveRes` and
`Pipeline.InsertedRowEntersTot` state this asymmetry.

## Model

| member | source | states |
|---|---|---|
| Reviews.FilterScored | streamlit_app.py:5 | the kept rows are no more than the input, every kept row is scored, and a record is kept exactly when it occurs in the input and its score is not -1 |
| Reviews.FilterAppend | streamlit_app.py:5 | filtering a concatenation filters each part in place, so kept rows keep their relative order |
| Reviews.FilterKeepsScoredTable | streamlit_app.py:5 | a table with no unscored row passes the filter unchanged |
| Reviews.FilterDropsUnscoredTable | streamlit_app.py:5 | a table whose rows are all unscored filters to the empty table |
| Reviews.FilterIdempotent | streamlit_app.py:5 | filtering twice is the same as filtering once |
| Reviews.FilterCount | streamlit_app.py:14 | the number of reviews equals the number of positions of the input whose score is not -1, hence at most the input length |
| Reviews.Approval | streamlit_app.py:6 | the rating is undefined exactly when likes and dislikes are both zero; otherwise it lies in [0, 1] and times (likes + dislikes) gives likes |
| Reviews.ApprovalExtremes | streamlit_app.py:6 | the rating is 1 exactly for rows with likes and no dislikes, 0 exactly for rows with dislikes and no likes |
| Reviews.Approvals | streamlit_app.py:6 | the approval column has one entry per kept row, in row order, undefined exactly for rows without votes |
| Statistics.Mean | streamlit_app.py:13 | the mean is undefined exactly for an empty table; otherwise the mean times the row count is the sum of the scores |
| Statistics.MeanBetweenScores | streamlit_app.py:13 | some score is at most the mean and some score is at least the mean |
| Statistics.MeanBounded | streamlit_app.py:13 | any lower and upper bound of all scores also bounds the mean |
| Statistics.ResTerm | streamlit_app.py:26 | a row's contribution to res is non-negative and zero exactly when its rating is undefined or equals its score |
| Statistics.Res | streamlit_app.py:26 | res is non-negative and zero exactly when every row with a defined rating has score equal to its rating |
| Statistics.ResAppend | streamlit_app.py:26 | res of a concatenation is the sum of the parts' res |
| Statistics.ResSkipsUnrated | streamlit_app.py:26 | removing a row without votes leaves res unchanged |
| Statistics.SumSqDev | streamlit_app.py:27 | the sum of squared deviations from a centre is non-negative and zero exactly when every score equals that centre |
| Statistics.Tot | streamlit_app.py:27 | tot is non-negative and zero exactly when all kept scores are equal (including the empty table) |
| Statistics.R2 | streamlit_app.py:28 | the metric is undefined exactly when all kept scores are equal; otherwise it is at most 1, equals 1 exactly when res is zero, and is negative exactly when res exceeds tot |
| Pipeline.Analyze | streamlit_app.py:5-28 | the report keeps exactly the scored rows, counts them, has one approval per kept row, has an undefined mean exactly when no row is scored, non-negative res and tot, and an r2 that is undefined exactly for equal scores and otherwise at most 1 |
| Pipeline.AnalyzeIdempotent | streamlit_app.py:5-28 | running the statistics on the kept rows reproduces the same report |
| Statistics.SumScoresAppend | streamlit_app.py:13 | the score sum behind the mean of a concatenation is the sum of the parts' sums |
| Pipeline.KeptWithInserted | streamlit_app.py:5 | inserting a scored row into a table inserts it at the same place among the kept rows |
| Pipeline.UnratedRowsOnlyLeaveRes | streamlit_app.py:13-26 | a scored row without votes adds one to the count and its score to the sum behind the mean, but nothing to res |
| Pipeline.InsertedRowEntersTot | streamlit_app.py:27 | a scored row, with or without votes, enters tot: next to any other scored row of the table with a different score it makes tot positive |
| Pipeline.UnratedSampleReport | streamlit_app.py:6-27 | for rows (8, 0, 0), (6, 40, 60): approvals undefined and 0.4, count 2, mean 7, res 31.36 (second row only), tot 2, r2 -14.68 |
| Pipeline.EqualScoresSampleReport | streamlit_app.py:13-28 | two rows both scored 5: the mean is 5, tot is 0, res is 36.25, and the fit metric (minus infinity in the original) is undefined |
| Pipeline.SampleReport | streamlit_app.py:5-28 | for rows (8, 90, 10), (-1, 5, 5), (6, 40, 60): count 2, approvals 0.9 and 0.4, mean 7, res 81.77, tot 2, r2 -39.885 |

## Left out

- Loading the CSV file (streamlit_app.py:4) is file I/O inside pandas; the loaded table is the input `seq<Record>`. The code has no loader error handling, so none is modelled.
- The Streamlit presentation (streamlit_app.py:7, 9-35): tabs, containers, columns, metrics, the rounding to two decimals, the scatter chart and the title list.
- `api_key.py` entirely: it reads a secret from a file and builds a client for a video-platform API (file I/O and a foreign library).
- IEEE-754 rounding and NaN bit patterns: arithmetic is exact over `real`; each NaN the code can produce is `None`.
- Statistics.R2: when `tot` is zero and `res` is positive, float division gives minus infinity rather than NaN; the model reports `None` for both. The contract characterises when the metric is undefined, its bound, when it is 1 and when it is negative; the exact value `1 - res / tot` is fixed only by the body and by `Pipeline.SampleReport`.
- Missing cells are not modelled: every score, likes and dislikes cell is assumed present and numeric (`Record` has a `real` score and `nat` counts). In the original, `read_csv` turns an empty cell into NaN. A NaN score passes the sentinel test (line 5) and is counted by the row count (line 14), but `mean()` and the NaN-skipping sums of `res` and `tot` (lines 13, 26-27) skip it, so the count and the mean's divisor then differ. A NaN likes or dislikes value makes that row's approval rating NaN.
- Columns other than the title, score, likes and dislikes are pass-through data; `title` stands for all of them.
- The sentinel is the constant `-1` as written in the code, not a configuration option.

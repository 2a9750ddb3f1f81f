# YouTube comment sentiment analyzer — Dafny model

This project models the logic of a small Flask application. The application takes a
YouTube video URL and fetches the video's comments. It scores each comment with a
sentiment classifier. It then aggregates the scores into an overall verdict and records
that verdict per video. Everything is in `app.py`. Four pieces are modelled:

- **The aggregation** `get_segregated_comments_and_stats` (`aggregation.dfy`,
  `ranking.dfy`, `rounding.dfy`). The method `Aggregation.SegregateCommentsAndStats`
  is the source's loop. In one pass it sums each comment's positivity: the score when
  the label is `'POSITIVE'`, otherwise `1 - score`. In the same pass it appends the
  comment to the neutral, positive or negative list. It then sorts each list, keeps
  five entries, rounds the mean positivity to two decimals and maps it to a sentiment.
  The method is proved equal to the specification function `Aggregation.Aggregate`.
  The lemmas beside it state what that function promises.
- **The video-id extraction** `get_videoid_from_url` (`video_url.dfy`). It is a search
  over `seq<char>` for the leftmost 11-character `[0-9A-Za-z_-]` run after `v=`, then
  after `/`. The handler's `url.replace("watch?v=", "v/")` is modelled as
  `VideoUrl.ReplaceAll`, with `VideoUrl.NormalizeUrl` applying it.
- **The upsert by URL** of the handler (`store.dfy`). The `Video` table is a
  `map<string, VideoRecord>` field of the class `VideoStore.Store`. An unseen URL gets a
  new row. A known URL gets only its score and sentiment overwritten.
- **The handler** `evaluate_sentiment` (`VideoStore.Store.EvaluateSentiment`). It chains
  the three pieces above. The title, the comments, the classifier results and the clock
  are parameters.

Behaviours of the code that the model keeps as written:

- Classifier scores, the positivity sum and the overall score are exact `real`s.
- The aggregation raises no error of its own:
  - A comment without a classification makes the source raise `IndexError`. This is
    `MissingClassification(|results|)`.
  - An empty comment list makes it raise `ZeroDivisionError`. This is `NoComments`.
  - Classifications beyond the last comment are ignored, not rejected
    (`ExtraClassificationsIgnored`).
- The neutral list is sorted by `abs(5 - score)` in descending order, as the code does,
  although the comment above that line says "closest value to 5". Neutral scores lie
  strictly between 0.4 and 0.7. So the list holds the LOWEST-scoring neutral comments,
  in ascending score order (`SelectedNeutral`).
- An overall score of exactly 0.7 is `NEGATIVE`. It fails both `< 0.7` and `> 0.7`
  (`SentimentBand`).
- Python's `sorted` is stable, also with `reverse=True`. `Ranking.SortDesc` is a stable
  insertion sort. Stability is stated with `KeyFilter`: for every key value, the
  entries with that key appear in the same order as in the input.

## Model

| member | source | states |
|---|---|---|
| Aggregation.SegregateCommentsAndStats | app.py:52-97 | The loop, the sort-and-slice passes, the rounding and the banding return exactly `Aggregate(comments, results)`. The loop invariants tie the running sum and the three lists to `PositivitySum` and `Bucketed` of the processed prefix. |
| Aggregation.Aggregate | app.py:57-80 | The aggregation fails iff there are no comments or fewer classifications than comments. No comments gives the division error. Too few classifications gives the index error at index `|results|`. |
| Aggregation.BucketOf | app.py:68-73 | A comment is neutral iff 0.4 < score < 0.7, whatever its label. Otherwise it is positive iff labelled 'POSITIVE' and negative iff not. |
| Aggregation.Bucketed | app.py:57-73 | The neutral, positive or negative list after n comments holds at most n entries. BucketsPartition, BucketsCount and BucketMembership say which entries. |
| Aggregation.PartitionStep | app.py:67-73 | The n-th comment joins exactly one of the three lists, so the three lists still account for every comment. |
| Aggregation.BucketsPartition | app.py:67-73 | The three buckets together hold the entries of all processed comments, each exactly as often as it occurs: every comment goes to exactly one bucket. |
| Aggregation.BucketsCount | app.py:67-73 | The sizes of the three buckets add up to the number of processed comments. |
| Aggregation.BucketMembership | app.py:68-73 | An entry is in the neutral bucket iff some comment has that text and raw score with 0.4 < score < 0.7 (strict bounds). Otherwise it is positive iff the label is 'POSITIVE', and negative for any other label. |
| Aggregation.SelectedByScore | app.py:75-76 | The positive and negative lists hold min(5, bucket size) entries of their bucket, in descending score order. No entry left out scores higher than an entry kept. Entries with equal scores keep their input order. |
| Aggregation.TopByScore | app.py:75-76 | The same facts about the top five by score of any list of scored comments, stated on raw scores. |
| Aggregation.SelectedNeutral | app.py:77-78 | The neutral list holds min(5, bucket size) neutral entries, in ascending raw-score order. These are the lowest-scoring neutral comments: no entry left out scores lower. Equal scores keep their input order. |
| Aggregation.TopByDistance | app.py:77-78 | For scores in (0.4, 0.7), the top five by distance from 5 (largest first) are the five lowest scores, ascending, stably. |
| Aggregation.DistanceFromFive | app.py:78 | The neutral sort key `abs(5 - score)` is never negative, and for a score up to 5 it is 5 - score. So a larger key means a lower score. |
| Aggregation.LowestScoresFirst | app.py:77-78 | A selection ranked by descending distance from 5, over scores in (0.4, 0.7), is a selection ranked by ascending score, including the stability property. |
| Aggregation.DistanceFilterIsScoreFilter | app.py:78 | Below 5, filtering by distance 5 - v selects the same entries, in the same order, as filtering by score v. |
| Aggregation.OverallScoreInUnitInterval | app.py:61-80 | If every score is in [0, 1], the mean positivity is in [0, 1]. The overall score is then also in [0, 1], is a whole number of cents, and is within half a cent of the mean. |
| Aggregation.Positivity | app.py:62-65 | A comment's contribution to the overall score stays in [0, 1] when its score does. The contribution is the score for 'POSITIVE' and one minus the score for any other label. |
| Aggregation.PositivitySum | app.py:57-65 | The running `overall_score` after n comments. With every score in [0, 1] it lies between 0 and n. |
| Aggregation.MeanPositivity | app.py:80 | The unrounded overall score: times the comment count it gives back the positivity sum. OverallScoreInUnitInterval bounds it in [0, 1]. |
| Aggregation.SentimentBand | app.py:83-89 | NEUTRAL iff 0.4 < score < 0.7. POSITIVE iff score > 0.7. NEGATIVE iff score <= 0.4 or score = 0.7. |
| Aggregation.VerdictSentiment | app.py:82-89 | The verdict's overall sentiment follows that banding rule applied to its own rounded overall score. |
| Aggregation.ExtraClassificationsIgnored | app.py:57-59 | Appending classifications beyond the last comment does not change the result. |
| Aggregation.ScenarioOneOfEach | app.py:52-97 | Scenario: 'great!' (POSITIVE 0.95), 'terrible' (NEGATIVE 0.9) and 'meh' (POSITIVE 0.5) give one entry per list, overall score 0.52 and NEUTRAL. |
| Aggregation.ScenarioSinglePositive | app.py:52-97 | Scenario: a single POSITIVE 0.99 comment gives score 0.99 and POSITIVE. It is the only entry, and it is in the positive list. |
| Aggregation.ScenarioSingleNegative | app.py:52-97 | Scenario: a single NEGATIVE 0.99 comment gives score 0.01 and NEGATIVE. It is in the negative list. |
| Aggregation.ScenarioNoComments | app.py:80 | Scenario: no comments gives the division failure, whatever the classifications. |
| Ranking.Insert | app.py:75-78 | One step of the stable sort adds exactly one entry. It goes behind every entry whose key is at least its own (InsertStable, and InsertSorted for order). |
| Ranking.SortDesc | app.py:75-78 | `sorted(s, key, reverse=True)` returns as many entries as it is given. SortDescPermutes, SortDescSorted and SortDescStable show it is the stable descending sort. |
| Ranking.Top | app.py:75-78 | `sorted(...)[:n]` keeps min(n, size) entries. TopSelects says which. |
| Ranking.SortDescPermutes | app.py:75-78 | `sorted` returns a permutation of its input (same multiset). |
| Ranking.SortDescSorted | app.py:75-78 | `sorted(..., reverse=True)` returns its input in descending key order. |
| Ranking.SortDescStable | app.py:75-78 | For every key value, the entries with that key appear in the sorted output in their input order. |
| Ranking.InsertStable | app.py:75-78 | Inserting into a sorted list places the new entry behind all entries with an equal key. |
| Ranking.TopSelects | app.py:75-78 | `sorted(...)[:n]` has min(n, size) entries and is a sub-multiset of the input. It is in descending key order and outranks every entry left out. Per key value, it keeps a prefix of the input's entries with that key. |
| Rounding.Round2 | app.py:80 | Two-decimal rounding returns a whole number of cents within half a cent of its argument. |
| Rounding.Round2Idempotent | app.py:80 | Rounding an already rounded value changes nothing. |
| Rounding.Round2Monotone | app.py:80 | Rounding preserves order. |
| Rounding.Round2UnitInterval | app.py:80 | A value in [0, 1] rounds to a value in [0, 1]. |
| VideoUrl.Search | app.py:35 | The search returns the leftmost position at or after `from` where the lookbehind pattern matches, or None when no position there matches. |
| VideoUrl.VideoIdFromUrl | app.py:34-38 | A result has 11 characters from `[0-9A-Za-z_-]`. It is the leftmost run preceded by `v=`, or, when no such run exists, the leftmost run preceded by `/`. The result is None iff neither pattern matches. |
| VideoUrl.IdFoundAfterQuery | app.py:35-38 | When the leftmost match after `v=` is at p, the id is the 11 characters at p. |
| VideoUrl.IdFoundAfterSlash | app.py:35-38 | When nothing matches after `v=` and the leftmost match after `/` is at p, the id is the 11 characters at p. |
| VideoUrl.NoMatchWithoutEquals | app.py:35 | A URL without `=` has no match after `v=`. |
| VideoUrl.ShortLinkId | app.py:34-38 | `https://youtu.be/dQw4w9WgXcQ` yields `dQw4w9WgXcQ`. |
| VideoUrl.WatchLinkId | app.py:34-38 | `https://x.com/watch?v=dQw4w9WgXcQ` yields `dQw4w9WgXcQ`. |
| VideoUrl.NotAUrl | app.py:34-38 | `not a url` yields None. |
| VideoUrl.PathLinkId | app.py:34-38 | `https://www.youtube.com/v/dQw4w9WgXcQ` yields `dQw4w9WgXcQ`, found after `/`. |
| VideoUrl.ReplaceAll | app.py:102 | `str.replace` leaves a string shorter than the pattern unchanged. ReplaceAbsent, ReplaceAfter and ReplaceShrinks say what it does to longer strings. |
| VideoUrl.NormalizeUrl | app.py:102 | The `watch?v=` to `v/` rewrite never lengthens the URL, and it shortens any URL that contains `watch?v=`. NormalizeUrlChangesIff gives the converse. |
| VideoUrl.ReplaceAbsent | app.py:102 | `replace` leaves a string without the pattern unchanged. |
| VideoUrl.ReplaceShrinks | app.py:102 | With a shorter replacement, `replace` never lengthens a string, and it strictly shortens a string that contains the pattern. |
| VideoUrl.NormalizeUrlChangesIff | app.py:102 | The handler's rewrite changes a URL iff the URL contains `watch?v=`. |
| VideoUrl.ReplaceAfter | app.py:102 | `replace` copies a stretch in which no occurrence starts, then rewrites the occurrence after it, then carries on. |
| VideoUrl.NormalizeWatchUrl | app.py:102 | `<host>watch?v=<id>`, with no other occurrence, becomes `<host>v/<id>`. |
| VideoUrl.QuestionFreeWatchUrl | app.py:102 | For any host and id without `?`, `<host>watch?v=<id>` becomes `<host>v/<id>`. |
| VideoUrl.NormalizeWatchLink | app.py:102 | The full watch link `https://www.youtube.com/watch?v=dQw4w9WgXcQ` becomes `https://www.youtube.com/v/dQw4w9WgXcQ`. |
| VideoUrl.WatchLinkThroughHandler | app.py:102-111 | After the rewrite, the handler still finds the id of a full watch link. |
| VideoStore.Upsert | app.py:123-128 | Afterwards the URL is a key and no other key is added. An unseen URL gets a new record with the given title, score, sentiment and time. For a known URL only score and sentiment change; url, title and creation time stay. Every other row is untouched. |
| VideoStore.UpsertKeepsKeying | app.py:123-128 | If every row is stored under its own URL before the upsert, this still holds after it. |
| VideoStore.UpsertTwice | app.py:123-128 | Two evaluations of one URL leave the first title and creation time and the second score and sentiment. |
| VideoStore.UpsertIdempotent | app.py:123-128 | Repeating an evaluation with the same outcome changes nothing. |
| VideoStore.Store.Save | app.py:123-130 | The table becomes `Upsert` of the old table, and every row stays stored under its own URL. |
| VideoStore.Store.EvaluateSentiment | app.py:99-132 | If the rewritten URL has no video id, the answer is invalid-URL and the table is unchanged. If the aggregation fails, the table is unchanged. Otherwise the verdict is returned and the table is upserted under the rewritten URL with the verdict's score and sentiment. |

## Left out

- The Flask application: the routes `index`, `evaluate_sentiment`'s request parsing and `render_template`, and `recents`. `recents` lists rows newest first and deletes all rows; both are persistence queries with no logic of their own.
- The YouTube Data API: `build`, the API key from the environment, `get_video_title_from_youtube` and `get_video_comments_from_youtube`. These are network calls. Their results (title, comment texts) are parameters of `EvaluateSentiment`.
- The transformers `pipeline("sentiment-analysis")`. It is a foreign model. Its output is the `results` parameter, one label/score pair per comment.
- SQLAlchemy sessions, `add`/`commit`, the auto-increment `id` column and the column length limits. `created_at`'s `datetime.now` is the `now` parameter.
- `migrations/versions/b7ff1af608d2_initial_migration.py`: a schema declaration with no logic.
- IEEE-754 floating point. Scores are exact reals, so comparisons with 0.4 and 0.7 are exact and no representation error occurs.
- Rounding.Round2: rounds ties up (floor(100x + 1/2) / 100). Python's `round(x, 2)` rounds the binary float's exact value, half to even. The two can differ on values at or next to a half-cent.
- VideoUrl.ReplaceAll: requires a non-empty pattern. Python's `replace` with an empty pattern inserts the replacement between all characters. The handler only uses the constant `watch?v=`.
- The overall sentiment is the datatype `Sentiment`, not the strings 'POSITIVE', 'NEGATIVE' and 'NEUTRAL'. Labels stay strings, and any label other than 'POSITIVE' counts as negative.
- Python exceptions are `Failure` values of `AggregateError`. The handler's "Invalid video url" response is the `InvalidVideoUrl` outcome.

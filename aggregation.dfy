/** `get_segregated_comments_and_stats`: folds a video's comments and their classifier
    results into an overall positivity score, an overall sentiment and the five most
    telling positive, negative and neutral comments. */
module Aggregation {
  import opened Wrappers
  import opened Ranking
  import opened Rounding

  /** The classifier label that counts as positive; every other label counts as negative. */
  const POSITIVE_LABEL: string := "POSITIVE"
  /** How many comments of each kind are kept. */
  const TOP_COUNT: nat := 5

  /** One result of the sentiment-analysis pipeline: its `label` (a Dafny keyword, hence
      `classLabel`) and its `score`, the confidence in that label. */
  datatype Classification = Classification(classLabel: string, score: real)

  datatype Bucket = PositiveBucket | NegativeBucket | NeutralBucket

  /** The overall verdict strings 'POSITIVE', 'NEGATIVE' and 'NEUTRAL'. */
  datatype Sentiment = Positive | Negative | Neutral

  datatype Verdict = Verdict(
    positive: seq<ScoredComment>,
    negative: seq<ScoredComment>,
    neutral: seq<ScoredComment>,
    overallSentiment: Sentiment,
    overallScore: real)

  /** The exceptions the source raises instead of returning: an `IndexError` when a
      comment has no classification, a `ZeroDivisionError` when there are no comments. */
  datatype AggregateError = MissingClassification(index: nat) | NoComments

  /** The comment's contribution on the positivity axis. */
  function Positivity(c: Classification): (r: real)
    ensures 0.0 <= c.score <= 1.0 ==> 0.0 <= r <= 1.0
  {
    if c.classLabel == POSITIVE_LABEL then c.score else 1.0 - c.score
  }

  /** Sum of the positivity of the first `n` classifications; with every score in
      [0, 1] it lies between 0 and `n`. */
  function PositivitySum(rs: seq<Classification>, n: nat): (r: real)
    requires n <= |rs|
    ensures (forall i :: 0 <= i < n ==> 0.0 <= rs[i].score <= 1.0) ==> 0.0 <= r <= n as real
  {
    if n == 0 then 0.0 else PositivitySum(rs, n - 1) + Positivity(rs[n - 1])
  }

  /** The overall score before rounding: the average positivity of `n` comments. */
  function MeanPositivity(rs: seq<Classification>, n: nat): (r: real)
    requires 0 < n <= |rs|
    ensures r * (n as real) == PositivitySum(rs, n)
  {
    PositivitySum(rs, n) / n as real
  }

  /** The bucket a comment goes to, decided on its raw score. */
  function BucketOf(c: Classification): (r: Bucket)
    ensures r == NeutralBucket <==> 0.4 < c.score < 0.7
    ensures r == PositiveBucket <==> !(0.4 < c.score < 0.7) && c.classLabel == POSITIVE_LABEL
    ensures r == NegativeBucket <==> !(0.4 < c.score < 0.7) && c.classLabel != POSITIVE_LABEL
  {
    if 0.4 < c.score < 0.7 then NeutralBucket
    else if c.classLabel == POSITIVE_LABEL then PositiveBucket
    else NegativeBucket
  }

  function Entry(cs: seq<string>, rs: seq<Classification>, i: nat): ScoredComment
    requires i < |cs| && i < |rs|
  {
    ScoredComment(cs[i], rs[i].score)
  }

  /** The entries of the first `n` comments that fall in bucket `b`, in input order. */
  function Bucketed(cs: seq<string>, rs: seq<Classification>, b: Bucket, n: nat): (r: seq<ScoredComment>)
    requires n <= |cs| && n <= |rs|
    ensures |r| <= n
  {
    if n == 0 then []
    else Bucketed(cs, rs, b, n - 1)
         + (if BucketOf(rs[n - 1]) == b then [Entry(cs, rs, n - 1)] else [])
  }

  /** The entries of all of the first `n` comments, in input order. */
  function Entries(cs: seq<string>, rs: seq<Classification>, n: nat): seq<ScoredComment>
    requires n <= |cs| && n <= |rs|
  {
    if n == 0 then [] else Entries(cs, rs, n - 1) + [Entry(cs, rs, n - 1)]
  }

  /** Sort key of the positive and negative comments. */
  function Score(c: ScoredComment): real { c.score }

  /** Sort key of the neutral comments, `abs(5 - score)`. */
  function DistanceFromFive(c: ScoredComment): (r: real)
    ensures 0.0 <= r
    ensures c.score <= 5.0 ==> r == 5.0 - c.score
  {
    if 5.0 - c.score < 0.0 then c.score - 5.0 else 5.0 - c.score
  }

  /** The overall sentiment of a rounded overall score; 0.7 itself is negative. */
  function SentimentBand(score: real): (r: Sentiment)
    ensures r == Neutral <==> 0.4 < score < 0.7
    ensures r == Positive <==> score > 0.7
    ensures r == Negative <==> score <= 0.4 || score == 0.7
  {
    if 0.4 < score < 0.7 then Neutral
    else if score > 0.7 then Positive
    else Negative
  }

  /** The whole result of `get_segregated_comments_and_stats`. */
  function Aggregate(cs: seq<string>, rs: seq<Classification>): (r: Result<Verdict, AggregateError>)
    ensures r.Failure? <==> |cs| == 0 || |rs| < |cs|
    ensures r == Failure(NoComments) <==> |cs| == 0
    ensures r == Failure(MissingClassification(|rs|)) <==> |rs| < |cs|
  {
    if |rs| < |cs| then Failure(MissingClassification(|rs|))
    else if |cs| == 0 then Failure(NoComments)
    else
      var n := |cs|;
      var score := Round2(MeanPositivity(rs, n));
      Success(Verdict(
        Top(Score, Bucketed(cs, rs, PositiveBucket, n), TOP_COUNT),
        Top(Score, Bucketed(cs, rs, NegativeBucket, n), TOP_COUNT),
        Top(DistanceFromFive, Bucketed(cs, rs, NeutralBucket, n), TOP_COUNT),
        SentimentBand(score),
        score))
  }

  /** The loop of the source: one pass that accumulates the positivity sum and appends
      each comment to its bucket, then the sort-and-slice passes, the rounding of the
      mean and the banding. */
  method SegregateCommentsAndStats(comments: seq<string>, results: seq<Classification>)
    returns (r: Result<Verdict, AggregateError>)
    ensures r == Aggregate(comments, results)
  {
    var overall := 0.0;
    var positive: seq<ScoredComment> := [];
    var negative: seq<ScoredComment> := [];
    var neutral: seq<ScoredComment> := [];
    var i := 0;
    while i < |comments|
      invariant i <= |comments| && i <= |results|
      invariant overall == PositivitySum(results, i)
      invariant positive == Bucketed(comments, results, PositiveBucket, i)
      invariant negative == Bucketed(comments, results, NegativeBucket, i)
      invariant neutral == Bucketed(comments, results, NeutralBucket, i)
    {
      if i >= |results| {
        return Failure(MissingClassification(i));
      }
      var classLabel, score := results[i].classLabel, results[i].score;
      if classLabel == POSITIVE_LABEL {
        overall := overall + score;
      } else {
        overall := overall + (1.0 - score);
      }
      var entry := ScoredComment(comments[i], score);
      if 0.4 < score < 0.7 {
        neutral := neutral + [entry];
      } else if classLabel == POSITIVE_LABEL {
        positive := positive + [entry];
      } else {
        negative := negative + [entry];
      }
      i := i + 1;
    }
    positive := SortDesc(Score, positive)[..Min(TOP_COUNT, |positive|)];
    negative := SortDesc(Score, negative)[..Min(TOP_COUNT, |negative|)];
    neutral := SortDesc(DistanceFromFive, neutral)[..Min(TOP_COUNT, |neutral|)];
    if |comments| == 0 {
      return Failure(NoComments);
    }
    var overallScore := Round2(overall / |comments| as real);
    r := Success(Verdict(positive, negative, neutral, SentimentBand(overallScore), overallScore));
  }

  /** The three buckets of the first `n` comments together hold the entries of all of
      them, each as often as it occurs. */
  ghost predicate Partitioned(cs: seq<string>, rs: seq<Classification>, n: nat)
    requires n <= |cs| && n <= |rs|
  {
    multiset(Bucketed(cs, rs, PositiveBucket, n))
      + multiset(Bucketed(cs, rs, NegativeBucket, n))
      + multiset(Bucketed(cs, rs, NeutralBucket, n))
    == multiset(Entries(cs, rs, n))
  }

  /** Each comment lands in exactly one bucket. */
  lemma {:induction false} BucketsPartition(cs: seq<string>, rs: seq<Classification>, n: nat)
    requires n <= |cs| && n <= |rs|
    ensures Partitioned(cs, rs, n)
    decreases n, 1
  {
    if n > 0 {
      PartitionStep(cs, rs, n);
    }
  }

  /** The step of `BucketsPartition`: the `n`-th comment joins exactly one bucket. */
  lemma {:induction false} PartitionStep(cs: seq<string>, rs: seq<Classification>, n: nat)
    requires 0 < n <= |cs| && n <= |rs|
    ensures Partitioned(cs, rs, n)
    decreases n, 0
  {
    BucketsPartition(cs, rs, n - 1);
    var e := Entry(cs, rs, n - 1);
    var all := multiset(Entries(cs, rs, n - 1));
    assert multiset(Entries(cs, rs, n)) == all + multiset{e};
    var p, q, u := multiset(Bucketed(cs, rs, PositiveBucket, n - 1)),
                   multiset(Bucketed(cs, rs, NegativeBucket, n - 1)),
                   multiset(Bucketed(cs, rs, NeutralBucket, n - 1));
    var bk := BucketOf(rs[n - 1]);
    BucketStep(cs, rs, n, PositiveBucket);
    BucketStep(cs, rs, n, NegativeBucket);
    BucketStep(cs, rs, n, NeutralBucket);
    if bk == PositiveBucket {
      AddToOne(p, q, u, all, e);
    } else if bk == NegativeBucket {
      AddToOne(q, p, u, all, e);
    } else {
      AddToOne(u, p, q, all, e);
    }
  }

  lemma AddToOne(grown: multiset<ScoredComment>, a: multiset<ScoredComment>, b: multiset<ScoredComment>,
                 all: multiset<ScoredComment>, e: ScoredComment)
    requires grown + a + b == all || a + grown + b == all || a + b + grown == all
    ensures (grown + multiset{e}) + a + b == all + multiset{e}
    ensures a + (grown + multiset{e}) + b == all + multiset{e}
    ensures a + b + (grown + multiset{e}) == all + multiset{e}
  {
  }

  /** The `n`-th comment adds its entry to its own bucket and to no other. */
  lemma BucketStep(cs: seq<string>, rs: seq<Classification>, n: nat, b: Bucket)
    requires 0 < n <= |cs| && n <= |rs|
    ensures BucketOf(rs[n - 1]) == b ==>
      multiset(Bucketed(cs, rs, b, n)) == multiset(Bucketed(cs, rs, b, n - 1)) + multiset{Entry(cs, rs, n - 1)}
    ensures BucketOf(rs[n - 1]) != b ==> Bucketed(cs, rs, b, n) == Bucketed(cs, rs, b, n - 1)
  {
  }

  /** Between them the three buckets hold exactly `n` entries. */
  lemma {:induction false} BucketsCount(cs: seq<string>, rs: seq<Classification>, n: nat)
    requires n <= |cs| && n <= |rs|
    ensures |Bucketed(cs, rs, PositiveBucket, n)| + |Bucketed(cs, rs, NegativeBucket, n)|
          + |Bucketed(cs, rs, NeutralBucket, n)| == n
  {
    if n > 0 {
      BucketsCount(cs, rs, n - 1);
    }
  }

  /** Which comments a bucket holds: a neutral comment has a score strictly between
      0.4 and 0.7, whatever its label; otherwise the label 'POSITIVE' makes it
      positive and any other label negative.  Each entry keeps the comment's text and
      its raw score. */
  lemma {:induction false} BucketMembership(cs: seq<string>, rs: seq<Classification>, n: nat, x: ScoredComment)
    requires n <= |cs| && n <= |rs|
    ensures x in Bucketed(cs, rs, NeutralBucket, n) <==>
      exists i :: 0 <= i < n && x == ScoredComment(cs[i], rs[i].score)
                  && 0.4 < rs[i].score < 0.7
    ensures x in Bucketed(cs, rs, PositiveBucket, n) <==>
      exists i :: 0 <= i < n && x == ScoredComment(cs[i], rs[i].score)
                  && !(0.4 < rs[i].score < 0.7) && rs[i].classLabel == POSITIVE_LABEL
    ensures x in Bucketed(cs, rs, NegativeBucket, n) <==>
      exists i :: 0 <= i < n && x == ScoredComment(cs[i], rs[i].score)
                  && !(0.4 < rs[i].score < 0.7) && rs[i].classLabel != POSITIVE_LABEL
  {
    if n > 0 {
      BucketMembership(cs, rs, n - 1, x);
    }
  }

  lemma UnitQuotient(a: real, m: real)
    requires 0.0 <= a <= m && 0.0 < m
    ensures 0.0 <= a / m <= 1.0
  {
    assert a / m * m == a;
  }

  /** When every classifier score lies in [0, 1], so does the mean positivity, and the
      overall score is that mean rounded to two decimals, off by at most half a cent. */
  lemma OverallScoreInUnitInterval(cs: seq<string>, rs: seq<Classification>)
    requires 0 < |cs| <= |rs|
    requires forall i :: 0 <= i < |cs| ==> 0.0 <= rs[i].score <= 1.0
    ensures 0.0 <= MeanPositivity(rs, |cs|) <= 1.0
    ensures Aggregate(cs, rs).Success?
    ensures 0.0 <= Aggregate(cs, rs).value.overallScore <= 1.0
    ensures IsCents(Aggregate(cs, rs).value.overallScore)
    ensures Aggregate(cs, rs).value.overallScore - 0.005 <= MeanPositivity(rs, |cs|)
                                                         < Aggregate(cs, rs).value.overallScore + 0.005
  {
    var n := |cs|;
    UnitQuotient(PositivitySum(rs, n), n as real);
    Round2UnitInterval(MeanPositivity(rs, n));
  }

  /** The overall sentiment is read off the rounded score: neutral strictly between 0.4
      and 0.7, positive strictly above 0.7, negative otherwise (0.4 and 0.7 included). */
  lemma VerdictSentiment(cs: seq<string>, rs: seq<Classification>)
    requires Aggregate(cs, rs).Success?
    ensures var v := Aggregate(cs, rs).value;
      && (v.overallSentiment == Neutral <==> 0.4 < v.overallScore < 0.7)
      && (v.overallSentiment == Positive <==> v.overallScore > 0.7)
      && (v.overallSentiment == Negative <==> v.overallScore <= 0.4 || v.overallScore == 0.7)
  {
  }

  /** The positive and negative lists: the top five of their bucket by score, highest
      first, with equal scores in input order. */
  lemma SelectedByScore(cs: seq<string>, rs: seq<Classification>, b: Bucket)
    requires Aggregate(cs, rs).Success? && b != NeutralBucket
    ensures var v := Aggregate(cs, rs).value;
      var sel := if b == PositiveBucket then v.positive else v.negative;
      var bucket := Bucketed(cs, rs, b, |cs|);
      && |sel| == Min(TOP_COUNT, |bucket|) <= 5
      && multiset(sel) <= multiset(bucket)
      && (forall i, j :: 0 <= i < j < |sel| ==> sel[i].score >= sel[j].score)
      && (forall x, y :: x in sel && y in multiset(bucket) - multiset(sel) ==> x.score >= y.score)
      && (forall v :: KeyFilter(Score, sel, v) <= KeyFilter(Score, bucket, v))
  {
    var bucket := Bucketed(cs, rs, b, |cs|);
    TopByScore(bucket);
  }

  lemma TopByScore(bucket: seq<ScoredComment>)
    ensures var sel := Top(Score, bucket, TOP_COUNT);
      && |sel| == Min(TOP_COUNT, |bucket|) <= 5
      && multiset(sel) <= multiset(bucket)
      && (forall i, j :: 0 <= i < j < |sel| ==> sel[i].score >= sel[j].score)
      && (forall x, y :: x in sel && y in multiset(bucket) - multiset(sel) ==> x.score >= y.score)
      && (forall v :: KeyFilter(Score, sel, v) <= KeyFilter(Score, bucket, v))
  {
    var sel := Top(Score, bucket, TOP_COUNT);
    TopSelects(Score, bucket, TOP_COUNT);
    forall i, j | 0 <= i < j < |sel| ensures sel[i].score >= sel[j].score {
      assert Score(sel[i]) >= Score(sel[j]);
    }
    forall x, y | x in sel && y in multiset(bucket) - multiset(sel) ensures x.score >= y.score {
      assert Score(x) >= Score(y);
    }
  }

  lemma {:induction false} NeutralScores(cs: seq<string>, rs: seq<Classification>, n: nat)
    requires n <= |cs| && n <= |rs|
    ensures forall x :: x in Bucketed(cs, rs, NeutralBucket, n) ==> 0.4 < x.score < 0.7
  {
    if n > 0 {
      NeutralScores(cs, rs, n - 1);
    }
  }

  /** Below 5, equal distance from 5 means equal score. */
  lemma {:induction false} DistanceFilterIsScoreFilter(s: seq<ScoredComment>, v: real)
    requires forall x :: x in s ==> x.score < 5.0
    ensures KeyFilter(DistanceFromFive, s, 5.0 - v) == KeyFilter(Score, s, v)
  {
    if s != [] {
      DistanceFilterIsScoreFilter(s[1..], v);
    }
  }

  /** The neutral list, as the source literally sorts it (distance from 5, largest
      first): at most five neutral comments, those with the LOWEST raw scores, in
      ascending order of raw score, equal scores in input order. */
  lemma SelectedNeutral(cs: seq<string>, rs: seq<Classification>)
    requires Aggregate(cs, rs).Success?
    ensures var sel := Aggregate(cs, rs).value.neutral;
      var bucket := Bucketed(cs, rs, NeutralBucket, |cs|);
      && |sel| == Min(TOP_COUNT, |bucket|) <= 5
      && multiset(sel) <= multiset(bucket)
      && (forall x :: x in sel ==> 0.4 < x.score < 0.7)
      && (forall i, j :: 0 <= i < j < |sel| ==> sel[i].score <= sel[j].score)
      && (forall x, y :: x in sel && y in multiset(bucket) - multiset(sel) ==> x.score <= y.score)
      && (forall v :: KeyFilter(Score, sel, v) <= KeyFilter(Score, bucket, v))
  {
    NeutralScores(cs, rs, |cs|);
    TopByDistance(Bucketed(cs, rs, NeutralBucket, |cs|));
  }

  lemma TopByDistance(bucket: seq<ScoredComment>)
    requires forall x :: x in bucket ==> 0.4 < x.score < 0.7
    ensures var sel := Top(DistanceFromFive, bucket, TOP_COUNT);
      && |sel| == Min(TOP_COUNT, |bucket|) <= 5
      && multiset(sel) <= multiset(bucket)
      && (forall x :: x in sel ==> 0.4 < x.score < 0.7)
      && (forall i, j :: 0 <= i < j < |sel| ==> sel[i].score <= sel[j].score)
      && (forall x, y :: x in sel && y in multiset(bucket) - multiset(sel) ==> x.score <= y.score)
      && (forall v :: KeyFilter(Score, sel, v) <= KeyFilter(Score, bucket, v))
  {
    TopSelects(DistanceFromFive, bucket, TOP_COUNT);
    LowestScoresFirst(bucket, Top(DistanceFromFive, bucket, TOP_COUNT));
  }

  /** A selection of the largest distances from 5 among scores below 5 is a selection
      of the smallest scores. */
  lemma LowestScoresFirst(bucket: seq<ScoredComment>, sel: seq<ScoredComment>)
    requires forall x :: x in bucket ==> 0.4 < x.score < 0.7
    requires multiset(sel) <= multiset(bucket)
    requires SortedDesc(DistanceFromFive, sel)
    requires forall x, y :: x in sel && y in multiset(bucket) - multiset(sel)
               ==> DistanceFromFive(x) >= DistanceFromFive(y)
    requires forall v :: KeyFilter(DistanceFromFive, sel, v) <= KeyFilter(DistanceFromFive, bucket, v)
    ensures forall x :: x in sel ==> 0.4 < x.score < 0.7
    ensures forall i, j :: 0 <= i < j < |sel| ==> sel[i].score <= sel[j].score
    ensures forall x, y :: x in sel && y in multiset(bucket) - multiset(sel) ==> x.score <= y.score
    ensures forall v :: KeyFilter(Score, sel, v) <= KeyFilter(Score, bucket, v)
  {
    forall x | x in sel ensures 0.4 < x.score < 0.7 {
      assert x in multiset(sel);
    }
    forall i, j | 0 <= i < j < |sel| ensures sel[i].score <= sel[j].score {
      assert sel[i] in sel && sel[j] in sel;
      assert DistanceFromFive(sel[i]) >= DistanceFromFive(sel[j]);
    }
    forall x, y | x in sel && y in multiset(bucket) - multiset(sel) ensures x.score <= y.score {
      assert x in multiset(sel) && y in bucket;
      assert DistanceFromFive(x) >= DistanceFromFive(y);
    }
    forall v ensures KeyFilter(Score, sel, v) <= KeyFilter(Score, bucket, v) {
      assert KeyFilter(DistanceFromFive, sel, 5.0 - v) <= KeyFilter(DistanceFromFive, bucket, 5.0 - v);
      forall x | x in sel ensures x.score < 5.0 {
        assert x in multiset(sel);
      }
      DistanceFilterIsScoreFilter(sel, v);
      DistanceFilterIsScoreFilter(bucket, v);
    }
  }

  lemma {:induction false} PrefixOnly(cs: seq<string>, rs: seq<Classification>, extra: seq<Classification>, n: nat)
    requires n <= |cs| && n <= |rs|
    ensures PositivitySum(rs + extra, n) == PositivitySum(rs, n)
    ensures forall b :: Bucketed(cs, rs + extra, b, n) == Bucketed(cs, rs, b, n)
  {
    if n > 0 {
      PrefixOnly(cs, rs, extra, n - 1);
      assert (rs + extra)[n - 1] == rs[n - 1];
    }
  }

  /** Classifications beyond the last comment are never looked at. */
  lemma ExtraClassificationsIgnored(cs: seq<string>, rs: seq<Classification>, extra: seq<Classification>)
    requires |cs| <= |rs|
    ensures Aggregate(cs, rs + extra) == Aggregate(cs, rs)
  {
    PrefixOnly(cs, rs, extra, |cs|);
  }

  lemma TopOfOne(key: ScoredComment -> real, x: ScoredComment)
    ensures Top(key, [x], TOP_COUNT) == [x]
  {
    assert [x][..0] == [];
    assert SortDesc(key, [x]) == Insert(key, x, []);
  }

  /** Three comments, one of each kind: the mean positivity (0.95 + 0.1 + 0.5) / 3
      rounds to 0.52, which is neutral. */
  lemma ScenarioOneOfEach()
    ensures Aggregate(["great!", "terrible", "meh"],
                      [Classification("POSITIVE", 0.95), Classification("NEGATIVE", 0.9),
                       Classification("POSITIVE", 0.5)])
         == Success(Verdict([ScoredComment("great!", 0.95)], [ScoredComment("terrible", 0.9)],
                            [ScoredComment("meh", 0.5)], Neutral, 0.52))
  {
    var cs := ["great!", "terrible", "meh"];
    var rs := [Classification("POSITIVE", 0.95), Classification("NEGATIVE", 0.9),
               Classification("POSITIVE", 0.5)];
    assert PositivitySum(rs, 3) == 1.55;
    var mean := MeanPositivity(rs, 3);
    assert 52.0 <= mean * 100.0 + 0.5 < 53.0;
    assert Round2(mean) == 0.52;
    assert Bucketed(cs, rs, PositiveBucket, 3) == [ScoredComment("great!", 0.95)];
    assert Bucketed(cs, rs, NegativeBucket, 3) == [ScoredComment("terrible", 0.9)];
    assert Bucketed(cs, rs, NeutralBucket, 3) == [ScoredComment("meh", 0.5)];
    TopOfOne(Score, ScoredComment("great!", 0.95));
    TopOfOne(Score, ScoredComment("terrible", 0.9));
    TopOfOne(DistanceFromFive, ScoredComment("meh", 0.5));
    assert SentimentBand(0.52) == Neutral;
  }

  /** One confidently positive comment: score 0.99, positive. */
  lemma ScenarioSinglePositive()
    ensures Aggregate(["love it"], [Classification("POSITIVE", 0.99)])
         == Success(Verdict([ScoredComment("love it", 0.99)], [], [], Positive, 0.99))
  {
    var rs := [Classification("POSITIVE", 0.99)];
    assert PositivitySum(rs, 1) == 0.99;
    assert 99.0 <= MeanPositivity(rs, 1) * 100.0 + 0.5 < 100.0;
    assert Round2(MeanPositivity(rs, 1)) == 0.99;
    TopOfOne(Score, ScoredComment("love it", 0.99));
    assert Top(Score, [], TOP_COUNT) == [];
  }

  /** One confidently negative comment: its positivity 1 - 0.99 rounds to 0.01, negative. */
  lemma ScenarioSingleNegative()
    ensures Aggregate(["hate it"], [Classification("NEGATIVE", 0.99)])
         == Success(Verdict([], [ScoredComment("hate it", 0.99)], [], Negative, 0.01))
  {
    var rs := [Classification("NEGATIVE", 0.99)];
    assert PositivitySum(rs, 1) == 0.01;
    assert 1.0 <= MeanPositivity(rs, 1) * 100.0 + 0.5 < 2.0;
    assert Round2(MeanPositivity(rs, 1)) == 0.01;
    TopOfOne(Score, ScoredComment("hate it", 0.99));
    assert Top(Score, [], TOP_COUNT) == [];
    assert Top(DistanceFromFive, [], TOP_COUNT) == [];
  }

  /** No comments at all: the division by the comment count fails. */
  lemma ScenarioNoComments(rs: seq<Classification>)
    ensures Aggregate([], rs) == Failure(NoComments)
  {
  }
}

/** The persistence step of the `evaluate_sentiment` handler: the table of evaluated
    videos, keyed by the (rewritten) video URL, and the handler itself with its network
    and model calls turned into parameters. */
module VideoStore {
  import opened Wrappers
  import opened Aggregation
  import opened VideoUrl

  /** A row of the `Video` table; `createdAt` is the insertion time. */
  datatype VideoRecord = VideoRecord(
    url: string,
    title: string,
    score: real,
    sentiment: Sentiment,
    createdAt: int)

  /** Insert a new row for an unseen URL; for a known URL overwrite only the score and
      the sentiment. */
  function Upsert(videos: map<string, VideoRecord>, url: string, title: string,
                  score: real, sentiment: Sentiment, now: int): (r: map<string, VideoRecord>)
    ensures r.Keys == videos.Keys + {url}
    ensures url !in videos ==> r[url] == VideoRecord(url, title, score, sentiment, now)
    ensures url in videos ==>
      && r[url].score == score && r[url].sentiment == sentiment
      && r[url].url == videos[url].url && r[url].title == videos[url].title
      && r[url].createdAt == videos[url].createdAt
    ensures forall u :: u in videos && u != url ==> r[u] == videos[u]
  {
    if url !in videos then videos[url := VideoRecord(url, title, score, sentiment, now)]
    else videos[url := videos[url].(score := score, sentiment := sentiment)]
  }

  /** Every row is stored under its own URL. */
  ghost predicate KeyedByUrl(videos: map<string, VideoRecord>) {
    forall u :: u in videos ==> videos[u].url == u
  }

  lemma UpsertKeepsKeying(videos: map<string, VideoRecord>, url: string, title: string,
                          score: real, sentiment: Sentiment, now: int)
    requires KeyedByUrl(videos)
    ensures KeyedByUrl(Upsert(videos, url, title, score, sentiment, now))
  {
  }

  /** Evaluating the same URL twice keeps the first title and creation time and the
      latest score and sentiment. */
  lemma UpsertTwice(videos: map<string, VideoRecord>, url: string,
                    title1: string, score1: real, sentiment1: Sentiment, now1: int,
                    title2: string, score2: real, sentiment2: Sentiment, now2: int)
    ensures Upsert(Upsert(videos, url, title1, score1, sentiment1, now1), url, title2, score2, sentiment2, now2)
         == Upsert(videos, url, title1, score2, sentiment2, now1)
  {
    var once := Upsert(videos, url, title1, score1, sentiment1, now1);
    var twice := Upsert(once, url, title2, score2, sentiment2, now2);
    var direct := Upsert(videos, url, title1, score2, sentiment2, now1);
    assert twice.Keys == direct.Keys;
    forall u | u in twice ensures twice[u] == direct[u] {
      if u == url {
        assert twice[u].title == direct[u].title;
      }
    }
  }

  /** Repeating an evaluation with the same outcome changes nothing. */
  lemma UpsertIdempotent(videos: map<string, VideoRecord>, url: string, title: string,
                         score: real, sentiment: Sentiment, now: int, later: int)
    ensures Upsert(Upsert(videos, url, title, score, sentiment, now), url, title, score, sentiment, later)
         == Upsert(videos, url, title, score, sentiment, now)
  {
    UpsertTwice(videos, url, title, score, sentiment, now, title, score, sentiment, later);
  }

  /** What the handler answers. */
  datatype Evaluation =
    | InvalidVideoUrl
    | AggregationFailed(error: AggregateError)
    | Evaluated(videoUrl: string, verdict: Verdict)

  class Store {
    var videos: map<string, VideoRecord>

    ghost predicate Valid()
      reads this
    {
      KeyedByUrl(videos)
    }

    constructor ()
      ensures Valid() && videos == map[]
    {
      videos := map[];
    }

    /** Lines 123-130 of the handler: look the URL up, then insert or update the row. */
    method Save(url: string, title: string, score: real, sentiment: Sentiment, now: int)
      requires Valid()
      modifies this
      ensures Valid()
      ensures videos == Upsert(old(videos), url, title, score, sentiment, now)
    {
      UpsertKeepsKeying(videos, url, title, score, sentiment, now);
      if url !in videos {
        videos := videos[url := VideoRecord(url, title, score, sentiment, now)];
      } else {
        var video := videos[url];
        video := video.(score := score);
        video := video.(sentiment := sentiment);
        videos := videos[url := video];
      }
    }

    /** `evaluate_sentiment`: `title`, `comments` and `results` stand for what the video
        platform and the classifier return for the video's id, and `now` for the clock. */
    method EvaluateSentiment(url: string, title: string, comments: seq<string>,
                             results: seq<Classification>, now: int)
      returns (outcome: Evaluation)
      requires Valid()
      modifies this
      ensures Valid()
      ensures VideoIdFromUrl(NormalizeUrl(url)).None? ==>
        outcome == InvalidVideoUrl && videos == old(videos)
      ensures VideoIdFromUrl(NormalizeUrl(url)).Some? && Aggregate(comments, results).Failure? ==>
        outcome == AggregationFailed(Aggregate(comments, results).error) && videos == old(videos)
      ensures VideoIdFromUrl(NormalizeUrl(url)).Some? && Aggregate(comments, results).Success? ==>
        var v := Aggregate(comments, results).value;
        && outcome == Evaluated(NormalizeUrl(url), v)
        && videos == Upsert(old(videos), NormalizeUrl(url), title, v.overallScore, v.overallSentiment, now)
    {
      var videoUrl := NormalizeUrl(url);
      var videoId := VideoIdFromUrl(videoUrl);
      if videoId.None? {
        return InvalidVideoUrl;
      }
      var stats := SegregateCommentsAndStats(comments, results);
      if stats.Failure? {
        return AggregationFailed(stats.error);
      }
      var verdict := stats.value;
      Save(videoUrl, title, verdict.overallScore, verdict.overallSentiment, now);
      outcome := Evaluated(videoUrl, verdict);
    }
  }
}

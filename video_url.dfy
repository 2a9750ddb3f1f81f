/** The URL handling of the request handler: rewriting `watch?v=` to `v/`
    (`url.replace`) and `get_videoid_from_url`, two regular-expression searches for an
    11-character video id, one after `v=` and, failing that, one after `/`. */
module VideoUrl {
  import opened Wrappers

  const ID_LENGTH: nat := 11
  const WATCH_QUERY: string := "watch?v="
  const WATCH_PATH: string := "v/"

  /** `pat` starts at position `i` of `s`. */
  predicate OccursAt(s: string, pat: string, i: nat) {
    i + |pat| <= |s| && s[i..i + |pat|] == pat
  }

  ghost predicate Occurs(s: string, pat: string) {
    exists i: nat :: OccursAt(s, pat, i)
  }

  /** Python's `s.replace(pat, rep)`: every occurrence of `pat`, found left to right
      without overlap, replaced by `rep`. */
  function ReplaceAll(s: string, pat: string, rep: string): (r: string)
    requires |pat| > 0
    ensures |s| < |pat| ==> r == s
    decreases |s|
  {
    if |s| < |pat| then s
    else if s[..|pat|] == pat then rep + ReplaceAll(s[|pat|..], pat, rep)
    else [s[0]] + ReplaceAll(s[1..], pat, rep)
  }

  /** The rewrite the handler applies before looking for the video id. */
  function NormalizeUrl(url: string): (r: string)
    ensures |r| <= |url|
    ensures Occurs(url, WATCH_QUERY) ==> |r| < |url|
  {
    ReplaceShrinks(url, WATCH_QUERY, WATCH_PATH);
    ReplaceAll(url, WATCH_QUERY, WATCH_PATH)
  }

  lemma {:induction false} ReplaceAbsent(s: string, pat: string, rep: string)
    requires |pat| > 0 && !Occurs(s, pat)
    ensures ReplaceAll(s, pat, rep) == s
    decreases |s|
  {
    if |s| >= |pat| {
      assert !OccursAt(s, pat, 0);
      assert !Occurs(s[1..], pat) by {
        forall i: nat | OccursAt(s[1..], pat, i) ensures false {
          assert s[1..][i..i + |pat|] == s[i + 1..i + 1 + |pat|];
          assert OccursAt(s, pat, i + 1);
        }
      }
      ReplaceAbsent(s[1..], pat, rep);
      assert s == [s[0]] + s[1..];
    }
  }

  lemma {:induction false} ReplaceShrinks(s: string, pat: string, rep: string)
    requires |pat| > 0 && |rep| < |pat|
    ensures |ReplaceAll(s, pat, rep)| <= |s|
    ensures Occurs(s, pat) ==> |ReplaceAll(s, pat, rep)| < |s|
    decreases |s|
  {
    if |s| < |pat| {
    } else if s[..|pat|] == pat {
      ReplaceShrinks(s[|pat|..], pat, rep);
    } else {
      ReplaceShrinks(s[1..], pat, rep);
      if Occurs(s, pat) {
        var i: nat :| OccursAt(s, pat, i);
        assert i != 0;
        assert s[1..][i - 1..i - 1 + |pat|] == s[i..i + |pat|];
        assert OccursAt(s[1..], pat, i - 1);
      }
    }
  }

  /** The replacement leaves a URL unchanged exactly when the URL does not contain
      `watch?v=`. */
  lemma NormalizeUrlChangesIff(url: string)
    ensures NormalizeUrl(url) == url <==> !Occurs(url, WATCH_QUERY)
  {
    if Occurs(url, WATCH_QUERY) {
      ReplaceShrinks(url, WATCH_QUERY, WATCH_PATH);
    } else {
      ReplaceAbsent(url, WATCH_QUERY, WATCH_PATH);
    }
  }

  /** The character class `[0-9A-Za-z_-]`. */
  predicate IsIdChar(c: char) {
    ('0' <= c <= '9') || ('A' <= c <= 'Z') || ('a' <= c <= 'z') || c == '_' || c == '-'
  }

  /** `[0-9A-Za-z_-]{11}` matches at position `p`. */
  predicate IdRunAt(url: string, p: nat) {
    p + ID_LENGTH <= |url| && forall k :: p <= k < p + ID_LENGTH ==> IsIdChar(url[k])
  }

  /** The lookbehind `(?<=prefix)` holds at position `p`. */
  predicate PrecededBy(url: string, prefix: string, p: nat) {
    |prefix| <= p <= |url| && url[p - |prefix|..p] == prefix
  }

  /** The whole pattern `(?<=prefix)([0-9A-Za-z_-]{11})` matches at position `p`. */
  predicate MatchAt(url: string, prefix: string, p: nat) {
    PrecededBy(url, prefix, p) && IdRunAt(url, p)
  }

  ghost predicate NoMatch(url: string, prefix: string) {
    forall p: nat :: !MatchAt(url, prefix, p)
  }

  /** `p` is where `re.search` reports the match: the leftmost one. */
  ghost predicate FirstMatch(url: string, prefix: string, p: nat) {
    MatchAt(url, prefix, p) && forall q: nat :: q < p ==> !MatchAt(url, prefix, q)
  }

  /** `re.search` for the pattern, trying start positions from `from` on. */
  function Search(url: string, prefix: string, from: nat): (r: Option<nat>)
    ensures r.Some? ==> from <= r.value && MatchAt(url, prefix, r.value)
                        && forall q: nat :: from <= q < r.value ==> !MatchAt(url, prefix, q)
    ensures r.None? ==> forall q: nat :: from <= q ==> !MatchAt(url, prefix, q)
    decreases |url| - from
  {
    if from + ID_LENGTH > |url| then None
    else if MatchAt(url, prefix, from) then Some(from)
    else Search(url, prefix, from + 1)
  }

  /** `get_videoid_from_url`: the leftmost id after `v=`; if there is none, the
      leftmost id after `/`; if there is none either, `None`. */
  function VideoIdFromUrl(url: string): (r: Option<string>)
    ensures r.Some? ==> |r.value| == ID_LENGTH && forall c :: c in r.value ==> IsIdChar(c)
    ensures r.None? <==> NoMatch(url, "v=") && NoMatch(url, "/")
    ensures r.Some? ==> exists p: nat ::
      && p + ID_LENGTH <= |url| && r.value == url[p..p + ID_LENGTH]
      && (FirstMatch(url, "v=", p) || (NoMatch(url, "v=") && FirstMatch(url, "/", p)))
  {
    match Search(url, "v=", 0)
    case Some(p) =>
      assert FirstMatch(url, "v=", p);
      Some(url[p..p + ID_LENGTH])
    case None =>
      match Search(url, "/", 0)
      case Some(p) =>
        assert FirstMatch(url, "/", p);
        Some(url[p..p + ID_LENGTH])
      case None => None
  }

  /** Without `=` in the URL nothing is preceded by `v=`. */
  lemma NoMatchWithoutEquals(url: string)
    requires '=' !in url
    ensures NoMatch(url, "v=")
  {
    forall p: nat ensures !MatchAt(url, "v=", p) {
      if 2 <= p <= |url| {
        assert url[p - 2..p][1] == url[p - 1];
      }
    }
  }

  /** When the leftmost match after `v=` is at `p`, the id is the run at `p`. */
  lemma IdFoundAfterQuery(url: string, p: nat)
    requires FirstMatch(url, "v=", p)
    ensures p + ID_LENGTH <= |url| && VideoIdFromUrl(url) == Some(url[p..p + ID_LENGTH])
  {
  }

  /** When nothing follows `v=` and the leftmost match after `/` is at `p`, the id is the
      run at `p`. */
  lemma IdFoundAfterSlash(url: string, p: nat)
    requires NoMatch(url, "v=") && FirstMatch(url, "/", p)
    ensures p + ID_LENGTH <= |url| && VideoIdFromUrl(url) == Some(url[p..p + ID_LENGTH])
  {
  }

  /** A short link carries the id after its last `/`. */
  lemma ShortLinkId()
    ensures VideoIdFromUrl("https://youtu.be/dQw4w9WgXcQ") == Some("dQw4w9WgXcQ")
  {
    ShortLinkHasNoEquals();
    ShortLinkMatches();
    NoMatchWithoutEquals("https://youtu.be/dQw4w9WgXcQ");
    IdFoundAfterSlash("https://youtu.be/dQw4w9WgXcQ", 17);
  }

  lemma ShortLinkHasNoEquals()
    ensures '=' !in "https://youtu.be/dQw4w9WgXcQ"
  {
  }

  lemma ShortLinkMatches()
    ensures FirstMatch("https://youtu.be/dQw4w9WgXcQ", "/", 17)
    ensures "https://youtu.be/dQw4w9WgXcQ"[17..28] == "dQw4w9WgXcQ"
  {
    var host, id := "https://youtu.be/", "dQw4w9WgXcQ";
    var url := host + id;
    assert url == "https://youtu.be/dQw4w9WgXcQ";
    forall q: nat | q < 17 ensures !MatchAt(url, "/", q) {
      if q == 7 || q == 8 {
        assert !IsIdChar(url[13]);
      } else if 1 <= q {
        assert url[q - 1..q][0] == url[q - 1] != '/';
      }
    }
    assert MatchAt(url, "/", 17);
    assert url[17..28] == id;
  }

  /** A watch link carries the id after `v=`. */
  lemma WatchLinkId()
    ensures VideoIdFromUrl("https://x.com/watch?v=dQw4w9WgXcQ") == Some("dQw4w9WgXcQ")
  {
    WatchLinkMatches();
    IdFoundAfterQuery("https://x.com/watch?v=dQw4w9WgXcQ", 22);
  }

  lemma WatchLinkMatches()
    ensures FirstMatch("https://x.com/watch?v=dQw4w9WgXcQ", "v=", 22)
    ensures "https://x.com/watch?v=dQw4w9WgXcQ"[22..33] == "dQw4w9WgXcQ"
  {
    var host, id := "https://x.com/watch?v=", "dQw4w9WgXcQ";
    var url := host + id;
    assert url == "https://x.com/watch?v=dQw4w9WgXcQ";
    forall q: nat | q < 22 ensures !MatchAt(url, "v=", q) {
      if 2 <= q {
        assert url[q - 2..q][1] == url[q - 1] != '=';
      }
    }
    assert MatchAt(url, "v=", 22);
    assert url[22..33] == id;
  }

  /** Scanning left to right, `replace` copies a stretch in which no occurrence starts
      and then rewrites the occurrence that follows it. */
  lemma {:induction false} ReplaceAfter(a: string, pat: string, rep: string, b: string)
    requires |pat| > 0
    requires forall i: nat :: i < |a| ==> !OccursAt(a + pat + b, pat, i)
    ensures ReplaceAll(a + pat + b, pat, rep) == a + rep + ReplaceAll(b, pat, rep)
    decreases |a|
  {
    if a == [] {
      assert a + pat + b == pat + b;
      assert (pat + b)[..|pat|] == pat && (pat + b)[|pat|..] == b;
    } else {
      ReplaceSkipsFirst(a, pat, rep, b);
      ReplaceAfter(a[1..], pat, rep, b);
      assert a == [a[0]] + a[1..];
    }
  }

  lemma ReplaceSkipsFirst(a: string, pat: string, rep: string, b: string)
    requires |pat| > 0 && a != []
    requires forall i: nat :: i < |a| ==> !OccursAt(a + pat + b, pat, i)
    ensures ReplaceAll(a + pat + b, pat, rep) == [a[0]] + ReplaceAll(a[1..] + pat + b, pat, rep)
    ensures forall i: nat :: i < |a[1..]| ==> !OccursAt(a[1..] + pat + b, pat, i)
  {
    var s := a + pat + b;
    assert !OccursAt(s, pat, 0);
    assert s[1..] == a[1..] + pat + b;
    forall i: nat | i < |a[1..]| ensures !OccursAt(a[1..] + pat + b, pat, i) {
      assert !OccursAt(s, pat, i + 1);
      assert s[i + 1..i + 1 + |pat|] == s[1..][i..i + |pat|];
    }
  }

  /** The handler's rewrite on a watch link `<host>watch?v=<id>`: when `watch?v=` occurs
      nowhere else, the link becomes `<host>v/<id>`. */
  lemma NormalizeWatchUrl(host: string, id: string)
    requires forall i: nat :: i < |host| ==> !OccursAt(host + WATCH_QUERY + id, WATCH_QUERY, i)
    requires !Occurs(id, WATCH_QUERY)
    ensures NormalizeUrl(host + WATCH_QUERY + id) == host + WATCH_PATH + id
  {
    ReplaceAfter(host, WATCH_QUERY, WATCH_PATH, id);
    ReplaceAbsent(id, WATCH_QUERY, WATCH_PATH);
  }

  /** For instance, a full watch link becomes a `/v/` path ... */
  lemma NormalizeWatchLink()
    ensures NormalizeUrl("https://www.youtube.com/watch?v=dQw4w9WgXcQ")
         == "https://www.youtube.com/v/dQw4w9WgXcQ"
  {
    WatchLinkParts();
    QuestionFreeWatchUrl("https://www.youtube.com/", "dQw4w9WgXcQ");
  }

  /** The example watch link is a `?`-free host, the query `watch?v=` and a `?`-free id. */
  lemma WatchLinkParts()
    ensures "https://www.youtube.com/" + WATCH_QUERY + "dQw4w9WgXcQ"
         == "https://www.youtube.com/watch?v=dQw4w9WgXcQ"
    ensures "https://www.youtube.com/" + WATCH_PATH + "dQw4w9WgXcQ"
         == "https://www.youtube.com/v/dQw4w9WgXcQ"
    ensures '?' !in "https://www.youtube.com/" && '?' !in "dQw4w9WgXcQ"
  {
  }

  /** A watch link whose host and id hold no `?` has `watch?v=` only where the query
      starts, so the rewrite turns `<host>watch?v=<id>` into `<host>v/<id>`. */
  lemma QuestionFreeWatchUrl(host: string, id: string)
    requires '?' !in host && '?' !in id
    ensures NormalizeUrl(host + WATCH_QUERY + id) == host + WATCH_PATH + id
  {
    WatchQueryOnlyAfterHost(host, id);
    NoWatchQueryWithoutMark(id);
    NormalizeWatchUrl(host, id);
  }

  /** In `<host>watch?v=<id>` with no `?` in the host, `watch?v=` starts nowhere inside
      the host: its `?` would have to fall there. */
  lemma WatchQueryOnlyAfterHost(host: string, id: string)
    requires '?' !in host
    ensures forall i: nat :: i < |host| ==> !OccursAt(host + WATCH_QUERY + id, WATCH_QUERY, i)
  {
    var raw := host + WATCH_QUERY + id;
    forall i: nat | i < |host| ensures !OccursAt(raw, WATCH_QUERY, i) {
      if i + 8 <= |raw| {
        assert raw[i..i + 8][5] == raw[i + 5];
        if i + 5 < |host| {
          assert raw[i + 5] == host[i + 5];
        } else {
          assert raw[i + 5] == WATCH_QUERY[i + 5 - |host|];
        }
      }
    }
  }

  /** A string without `?` does not contain `watch?v=`. */
  lemma NoWatchQueryWithoutMark(s: string)
    requires '?' !in s
    ensures !Occurs(s, WATCH_QUERY)
  {
    forall i: nat ensures !OccursAt(s, WATCH_QUERY, i) {
      if i + 8 <= |s| {
        assert s[i..i + 8][5] == s[i + 5];
      }
    }
  }

  /** ... where the id is then found after `/`, there being no `v=` left. */
  lemma PathLinkId()
    ensures VideoIdFromUrl("https://www.youtube.com/v/dQw4w9WgXcQ") == Some("dQw4w9WgXcQ")
  {
    PathLinkHasNoEquals();
    PathLinkMatches();
    NoMatchWithoutEquals("https://www.youtube.com/v/dQw4w9WgXcQ");
    IdFoundAfterSlash("https://www.youtube.com/v/dQw4w9WgXcQ", 26);
  }

  lemma PathLinkHasNoEquals()
    ensures '=' !in "https://www.youtube.com/v/dQw4w9WgXcQ"
  {
  }

  lemma PathLinkMatches()
    ensures FirstMatch("https://www.youtube.com/v/dQw4w9WgXcQ", "/", 26)
    ensures "https://www.youtube.com/v/dQw4w9WgXcQ"[26..37] == "dQw4w9WgXcQ"
  {
    var host, id := "https://www.youtube.com/v/", "dQw4w9WgXcQ";
    var url := host + id;
    assert url == "https://www.youtube.com/v/dQw4w9WgXcQ";
    forall q: nat | q < 26 ensures !MatchAt(url, "/", q) {
      if q == 7 || q == 8 {
        assert !IsIdChar(url[11]);
      } else if q == 24 {
        assert !IsIdChar(url[25]);
      } else if 1 <= q {
        assert url[q - 1..q][0] == url[q - 1] != '/';
      }
    }
    assert MatchAt(url, "/", 26);
    assert url[26..37] == id;
  }

  /** End to end: the handler finds the id of a full watch link after the rewrite. */
  lemma WatchLinkThroughHandler()
    ensures VideoIdFromUrl(NormalizeUrl("https://www.youtube.com/watch?v=dQw4w9WgXcQ"))
         == Some("dQw4w9WgXcQ")
  {
    NormalizeWatchLink();
    PathLinkId();
  }

  /** Text without an id yields nothing. */
  lemma NotAUrl()
    ensures VideoIdFromUrl("not a url") == None
  {
  }
}

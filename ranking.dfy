/** The ranking step of the aggregation: Python's `sorted(..., key=..., reverse=True)`
    followed by the slice `[:5]`.  `sorted` is a stable sort, and with `reverse=True`
    it still keeps elements of equal key in their input order, so it is modelled by a
    stable insertion sort into descending key order.  The sort key is a parameter: the
    aggregation passes the raw score for the positive and negative comments and the
    distance of the score from 5 for the neutral ones. */
module Ranking {

  /** A comment together with the raw classifier score it was given. */
  datatype ScoredComment = ScoredComment(comment: string, score: real)

  function Min(a: nat, b: nat): nat { if a <= b then a else b }

  ghost predicate SortedDesc(key: ScoredComment -> real, s: seq<ScoredComment>) {
    forall i, j :: 0 <= i < j < |s| ==> key(s[i]) >= key(s[j])
  }

  /** The elements of `s` whose key equals `v`, in their order in `s`. */
  function KeyFilter(key: ScoredComment -> real, s: seq<ScoredComment>, v: real): (r: seq<ScoredComment>)
    ensures |r| <= |s|
  {
    if s == [] then []
    else (if key(s[0]) == v then [s[0]] else []) + KeyFilter(key, s[1..], v)
  }

  /** Inserts `x` after every element whose key is at least `x`'s key. */
  function Insert(key: ScoredComment -> real, x: ScoredComment, s: seq<ScoredComment>): (r: seq<ScoredComment>)
    ensures |r| == |s| + 1
  {
    if s == [] then [x]
    else if key(s[0]) >= key(x) then [s[0]] + Insert(key, x, s[1..])
    else [x] + s
  }

  /** Stable sort into descending key order, the model of `sorted(s, key, reverse=True)`. */
  function SortDesc(key: ScoredComment -> real, s: seq<ScoredComment>): (r: seq<ScoredComment>)
    ensures |r| == |s|
  {
    if s == [] then []
    else Insert(key, s[|s| - 1], SortDesc(key, s[..|s| - 1]))
  }

  /** `sorted(s, key, reverse=True)[:n]`. */
  function Top(key: ScoredComment -> real, s: seq<ScoredComment>, n: nat): (r: seq<ScoredComment>)
    ensures |r| == Min(n, |s|)
  {
    SortDesc(key, s)[..Min(n, |s|)]
  }

  lemma {:induction false} InsertPermutes(key: ScoredComment -> real, x: ScoredComment, s: seq<ScoredComment>)
    ensures multiset(Insert(key, x, s)) == multiset(s) + multiset{x}
  {
    if s != [] && key(s[0]) >= key(x) {
      var t := Insert(key, x, s[1..]);
      InsertPermutes(key, x, s[1..]);
      assert Insert(key, x, s) == [s[0]] + t;
      assert multiset([s[0]] + t) == multiset([s[0]]) + multiset(t);
      assert s == [s[0]] + s[1..];
      assert multiset(s) == multiset([s[0]]) + multiset(s[1..]);
    } else if s != [] {
      assert multiset([x] + s) == multiset([x]) + multiset(s);
    }
  }

  /** The sort is a permutation of its input. */
  lemma {:induction false} SortDescPermutes(key: ScoredComment -> real, s: seq<ScoredComment>)
    ensures multiset(SortDesc(key, s)) == multiset(s)
  {
    if s != [] {
      SortDescPermutes(key, s[..|s| - 1]);
      InsertPermutes(key, s[|s| - 1], SortDesc(key, s[..|s| - 1]));
      assert s == s[..|s| - 1] + [s[|s| - 1]];
    }
  }

  lemma {:induction false} InsertSorted(key: ScoredComment -> real, x: ScoredComment, s: seq<ScoredComment>)
    requires SortedDesc(key, s)
    ensures SortedDesc(key, Insert(key, x, s))
  {
    if s != [] && key(s[0]) >= key(x) {
      var t := Insert(key, x, s[1..]);
      SortedTail(key, s);
      InsertSorted(key, x, s[1..]);
      InsertBounded(key, x, s[1..], key(s[0]));
      ConsSorted(key, s[0], t);
    } else if s != [] {
      SortedTail(key, s);
      ConsSorted(key, x, s);
    }
  }

  /** Inserting an element no larger than `bound` into elements no larger than `bound`
      yields elements no larger than `bound`. */
  lemma {:induction false} InsertBounded(key: ScoredComment -> real, x: ScoredComment, s: seq<ScoredComment>, bound: real)
    requires key(x) <= bound
    requires forall i :: 0 <= i < |s| ==> key(s[i]) <= bound
    ensures forall i :: 0 <= i < |Insert(key, x, s)| ==> key(Insert(key, x, s)[i]) <= bound
  {
    if s != [] && key(s[0]) >= key(x) {
      InsertBounded(key, x, s[1..], bound);
      var t := Insert(key, x, s[1..]);
      assert Insert(key, x, s) == [s[0]] + t;
      forall i | 0 <= i < |s| ensures key(([s[0]] + t)[i]) <= bound {
        if i > 0 {
          assert ([s[0]] + t)[i] == t[i - 1];
        }
      }
    }
  }

  lemma ConsSorted(key: ScoredComment -> real, h: ScoredComment, t: seq<ScoredComment>)
    requires SortedDesc(key, t)
    requires forall i :: 0 <= i < |t| ==> key(t[i]) <= key(h)
    ensures SortedDesc(key, [h] + t)
  {
    forall i, j | 0 <= i < j < |[h] + t| ensures key(([h] + t)[i]) >= key(([h] + t)[j]) {
      assert ([h] + t)[j] == t[j - 1];
      if i > 0 {
        assert ([h] + t)[i] == t[i - 1];
      }
    }
  }

  lemma {:induction false} SortDescSorted(key: ScoredComment -> real, s: seq<ScoredComment>)
    ensures SortedDesc(key, SortDesc(key, s))
  {
    if s != [] {
      SortDescSorted(key, s[..|s| - 1]);
      InsertSorted(key, s[|s| - 1], SortDesc(key, s[..|s| - 1]));
    }
  }

  lemma {:induction false} KeyFilterAppend(key: ScoredComment -> real, a: seq<ScoredComment>, b: seq<ScoredComment>, v: real)
    ensures KeyFilter(key, a + b, v) == KeyFilter(key, a, v) + KeyFilter(key, b, v)
  {
    if a != [] {
      assert (a + b)[1..] == a[1..] + b;
      KeyFilterAppend(key, a[1..], b, v);
    } else {
      assert a + b == b;
    }
  }

  lemma {:induction false} KeyFilterNone(key: ScoredComment -> real, s: seq<ScoredComment>, v: real)
    requires forall i :: 0 <= i < |s| ==> key(s[i]) < v
    ensures KeyFilter(key, s, v) == []
  {
    if s != [] {
      KeyFilterNone(key, s[1..], v);
    }
  }

  lemma SortedTail(key: ScoredComment -> real, s: seq<ScoredComment>)
    requires s != [] && SortedDesc(key, s)
    ensures SortedDesc(key, s[1..])
    ensures forall i :: 0 <= i < |s| ==> key(s[i]) <= key(s[0])
  {
    forall i, j | 0 <= i < j < |s[1..]| ensures key(s[1..][i]) >= key(s[1..][j]) {
      assert s[1..][i] == s[i + 1] && s[1..][j] == s[j + 1];
    }
  }

  /** Inserting into a sorted sequence puts `x` behind every element of equal key. */
  lemma {:induction false} InsertStable(key: ScoredComment -> real, x: ScoredComment, s: seq<ScoredComment>, v: real)
    requires SortedDesc(key, s)
    ensures KeyFilter(key, Insert(key, x, s), v)
         == KeyFilter(key, s, v) + (if key(x) == v then [x] else [])
    decreases |s|, 1
  {
    if s == [] {
      assert KeyFilter(key, [x], v) == (if key(x) == v then [x] else []) + KeyFilter(key, [], v);
    } else if key(s[0]) >= key(x) {
      InsertBehindStable(key, x, s, v);
    } else {
      InsertFrontStable(key, x, s, v);
    }
  }

  lemma {:induction false} InsertBehindStable(key: ScoredComment -> real, x: ScoredComment, s: seq<ScoredComment>, v: real)
    requires s != [] && SortedDesc(key, s) && key(s[0]) >= key(x)
    ensures KeyFilter(key, [s[0]] + Insert(key, x, s[1..]), v)
         == KeyFilter(key, s, v) + (if key(x) == v then [x] else [])
    decreases |s|, 0
  {
    var head := if key(s[0]) == v then [s[0]] else [];
    var tail := if key(x) == v then [x] else [];
    var u := Insert(key, x, s[1..]);
    SortedTail(key, s);
    InsertStable(key, x, s[1..], v);
    assert ([s[0]] + u)[0] == s[0] && ([s[0]] + u)[1..] == u;
    calc {
      KeyFilter(key, [s[0]] + u, v);
      head + KeyFilter(key, u, v);
      head + (KeyFilter(key, s[1..], v) + tail);
      KeyFilter(key, s, v) + tail;
    }
  }

  lemma InsertFrontStable(key: ScoredComment -> real, x: ScoredComment, s: seq<ScoredComment>, v: real)
    requires s != [] && SortedDesc(key, s) && key(s[0]) < key(x)
    ensures KeyFilter(key, [x] + s, v) == (if key(x) == v then [x] else []) + KeyFilter(key, s, v)
    ensures KeyFilter(key, s, v) + (if key(x) == v then [x] else [])
         == (if key(x) == v then [x] else []) + KeyFilter(key, s, v)
  {
    if key(x) == v {
      SortedTail(key, s);
      KeyFilterNone(key, s, v);
    }
    assert ([x] + s)[0] == x && ([x] + s)[1..] == s;
  }

  /** Stability: for every key value, the elements carrying it keep their input order. */
  lemma {:induction false} SortDescStable(key: ScoredComment -> real, s: seq<ScoredComment>, v: real)
    ensures KeyFilter(key, SortDesc(key, s), v) == KeyFilter(key, s, v)
  {
    if s != [] {
      var init, last := s[..|s| - 1], s[|s| - 1];
      var sorted := SortDesc(key, init);
      var tail := if key(last) == v then [last] else [];
      assert s == init + [last];
      assert SortDesc(key, s) == Insert(key, last, sorted);
      SortDescStable(key, init, v);
      SortDescSorted(key, init);
      InsertStable(key, last, sorted, v);
      KeyFilterAppend(key, init, [last], v);
      assert KeyFilter(key, [last], v) == tail + KeyFilter(key, [], v);
      calc {
        KeyFilter(key, SortDesc(key, s), v);
        KeyFilter(key, sorted, v) + tail;
        KeyFilter(key, init, v) + tail;
        KeyFilter(key, init, v) + KeyFilter(key, [last], v);
        KeyFilter(key, s, v);
      }
    }
  }

  lemma {:induction false} KeyFilterPrefix(key: ScoredComment -> real, s: seq<ScoredComment>, m: nat, v: real)
    requires m <= |s|
    ensures KeyFilter(key, s[..m], v) <= KeyFilter(key, s, v)
  {
    assert s == s[..m] + s[m..];
    KeyFilterAppend(key, s[..m], s[m..], v);
  }

  /** What `sorted(s, key, reverse=True)[:n]` selects: at most `n` elements of `s`, in
      descending key order, none of them ranked below an element left out, and of the
      elements sharing one key value, the earliest ones in input order. */
  lemma TopSelects(key: ScoredComment -> real, s: seq<ScoredComment>, n: nat)
    ensures |Top(key, s, n)| == Min(n, |s|)
    ensures multiset(Top(key, s, n)) <= multiset(s)
    ensures SortedDesc(key, Top(key, s, n))
    ensures forall x, y :: x in Top(key, s, n) && y in multiset(s) - multiset(Top(key, s, n))
              ==> key(x) >= key(y)
    ensures forall v :: KeyFilter(key, Top(key, s, n), v) <= KeyFilter(key, s, v)
  {
    TopRanks(key, s, n);
    forall v ensures KeyFilter(key, Top(key, s, n), v) <= KeyFilter(key, s, v) {
      KeyFilterPrefix(key, SortDesc(key, s), Min(n, |s|), v);
      SortDescStable(key, s, v);
    }
  }

  lemma TopRanks(key: ScoredComment -> real, s: seq<ScoredComment>, n: nat)
    ensures multiset(Top(key, s, n)) <= multiset(s)
    ensures SortedDesc(key, Top(key, s, n))
    ensures forall x, y :: x in Top(key, s, n) && y in multiset(s) - multiset(Top(key, s, n))
              ==> key(x) >= key(y)
  {
    var sorted := SortDesc(key, s);
    var m := Min(n, |s|);
    SortDescPermutes(key, s);
    SortDescSorted(key, s);
    SplitMultiset(sorted, m);
    SortedSplit(key, sorted, m);
  }

  lemma SplitMultiset(t: seq<ScoredComment>, m: nat)
    requires m <= |t|
    ensures multiset(t) - multiset(t[..m]) == multiset(t[m..])
    ensures multiset(t[..m]) <= multiset(t)
  {
    assert t == t[..m] + t[m..];
  }

  lemma SortedSplit(key: ScoredComment -> real, t: seq<ScoredComment>, m: nat)
    requires m <= |t| && SortedDesc(key, t)
    ensures SortedDesc(key, t[..m])
    ensures forall x, y :: x in t[..m] && y in multiset(t[m..]) ==> key(x) >= key(y)
  {
    forall x, y | x in t[..m] && y in multiset(t[m..])
      ensures key(x) >= key(y)
    {
      assert y in t[m..];
      var i :| 0 <= i < m && t[..m][i] == x;
      var j :| 0 <= j < |t| - m && t[m..][j] == y;
      assert t[i] == x && t[m + j] == y;
    }
    forall i, j | 0 <= i < j < m ensures key(t[..m][i]) >= key(t[..m][j]) {
      assert t[..m][i] == t[i] && t[..m][j] == t[j];
    }
  }
}

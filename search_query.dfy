/**
 * The row selection of the vector store's similarity query:
 *
 *   select * from (select ..., score from T order by score desc) where score >= ? fetch first n rows only
 *
 * over rows of any type with an abstract score. The database's scan order is an input, and
 * ORDER BY is modelled by a stable insertion ranking of that scan, so rows with equal scores
 * may come back in any order the scan allows.
 */
module SearchQuery {

  /** Scores never increase along `s`: the ORDER BY score DESC guarantee. */
  ghost predicate NonIncreasing<T>(s: seq<T>, score: T -> real) {
    forall i, j :: 0 <= i < j < |s| ==> score(s[i]) >= score(s[j])
  }

  /** `x` placed before the first element it scores at least as high as. */
  function Insert<T>(x: T, s: seq<T>, score: T -> real): (r: seq<T>)
    ensures multiset(r) == multiset(s) + multiset{x}
  {
    if s == [] || score(x) >= score(s[0]) then [x] + s
    else
      assert s == [s[0]] + s[1..];
      [s[0]] + Insert(x, s[1..], score)
  }

  /** The rows in descending score order (order by score desc). */
  function Ranked<T>(s: seq<T>, score: T -> real): (r: seq<T>)
    ensures multiset(r) == multiset(s)
  {
    if s == [] then []
    else
      assert s == [s[0]] + s[1..];
      Insert(s[0], Ranked(s[1..], score), score)
  }

  /** The rows scoring at least `minScore`, in their order (where score >= ?). */
  function AtLeast<T>(s: seq<T>, score: T -> real, minScore: real): (r: seq<T>)
    ensures forall i :: 0 <= i < |r| ==> score(r[i]) >= minScore
    ensures |r| <= |s|
  {
    if s == [] then []
    else if score(s[0]) >= minScore then [s[0]] + AtLeast(s[1..], score, minScore)
    else AtLeast(s[1..], score, minScore)
  }

  /** The first `n` rows, none when n <= 0 (fetch first n rows only). */
  function Take<T>(s: seq<T>, n: int): (r: seq<T>)
    ensures r <= s
    ensures |r| == if n <= 0 then 0 else if n < |s| then n else |s|
  {
    if n <= 0 then [] else if n < |s| then s[..n] else s
  }

  /** The whole query: rank, keep the rows at or above the threshold, take the first rows.
      Every row returned reaches the threshold, and there are at most maxResults of them and
      no more than the table holds. */
  function Query<T>(s: seq<T>, score: T -> real, minScore: real, maxResults: int): (r: seq<T>)
    ensures forall i :: 0 <= i < |r| ==> score(r[i]) >= minScore
    ensures |r| <= |s|
    ensures maxResults <= 0 ==> r == []
    ensures maxResults > 0 ==> |r| <= maxResults
  {
    var ranked := Ranked(s, score);
    assert |ranked| == |multiset(ranked)| == |s|;
    Take(AtLeast(ranked, score, minScore), maxResults)
  }

  lemma {:induction false} InsertSorted<T>(x: T, s: seq<T>, score: T -> real)
    requires NonIncreasing(s, score)
    ensures NonIncreasing(Insert(x, s, score), score)
    decreases |s|
  {
    if s != [] && score(x) < score(s[0]) {
      InsertSorted(x, s[1..], score);
      var rest := Insert(x, s[1..], score);
      assert multiset(rest) == multiset(s[1..]) + multiset{x};
      forall k | 0 <= k < |rest|
        ensures score(s[0]) >= score(rest[k])
      {
        assert rest[k] in multiset(rest);
        if rest[k] != x {
          assert rest[k] in multiset(s[1..]);
          var m :| 0 <= m < |s[1..]| && s[1..][m] == rest[k];
          assert s[m + 1] == rest[k];
        }
      }
    }
  }

  /** The ranking is in descending score order. */
  lemma {:induction false} RankedSorted<T>(s: seq<T>, score: T -> real)
    ensures NonIncreasing(Ranked(s, score), score)
    decreases |s|
  {
    if s != [] {
      RankedSorted(s[1..], score);
      InsertSorted(s[0], Ranked(s[1..], score), score);
    }
  }

  /** The filter keeps every copy of a row that reaches the threshold and no other. */
  lemma {:induction false} AtLeastCount<T>(s: seq<T>, score: T -> real, minScore: real, x: T)
    ensures multiset(AtLeast(s, score, minScore))[x] == if score(x) >= minScore then multiset(s)[x] else 0
    decreases |s|
  {
    if s != [] {
      AtLeastCount(s[1..], score, minScore, x);
      assert s == [s[0]] + s[1..];
    }
  }

  /** On rows already in descending order the filter keeps a prefix, and every row after that
      prefix is below the threshold. */
  lemma {:induction false} SortedAtLeastIsPrefix<T>(s: seq<T>, score: T -> real, minScore: real)
    requires NonIncreasing(s, score)
    ensures AtLeast(s, score, minScore) <= s
    ensures forall j :: |AtLeast(s, score, minScore)| <= j < |s| ==> score(s[j]) < minScore
    decreases |s|
  {
    if s != [] {
      SortedAtLeastIsPrefix(s[1..], score, minScore);
      if score(s[0]) < minScore {
        AtLeastNone(s[1..], score, minScore);
      }
    }
  }

  /** A row list with no row at the threshold filters to nothing. */
  lemma {:induction false} AtLeastNone<T>(s: seq<T>, score: T -> real, minScore: real)
    requires forall i :: 0 <= i < |s| ==> score(s[i]) < minScore
    ensures AtLeast(s, score, minScore) == []
    decreases |s|
  {
    if s != [] {
      AtLeastNone(s[1..], score, minScore);
    }
  }

  lemma PrefixSorted<T>(p: seq<T>, s: seq<T>, score: T -> real)
    requires p <= s && NonIncreasing(s, score)
    ensures NonIncreasing(p, score)
  {
    assert forall i :: 0 <= i < |p| ==> p[i] == s[i];
  }

  lemma PrefixSubMultiset<T>(p: seq<T>, s: seq<T>)
    requires p <= s
    ensures multiset(p) <= multiset(s)
  {
    assert s == p + s[|p|..];
  }

  /** What the query returns: rows at or above minScore, best first, at most maxResults of
      them (none when maxResults <= 0), taken from the table; they are the leading rows of the
      qualifying rows in ranked order, so no qualifying row left out scores higher than a row
      returned. */
  lemma QuerySelects<T>(s: seq<T>, score: T -> real, minScore: real, maxResults: int)
    ensures var r := Query(s, score, minScore, maxResults);
      var qualifying := AtLeast(Ranked(s, score), score, minScore);
      && (forall i :: 0 <= i < |r| ==> score(r[i]) >= minScore)
      && NonIncreasing(r, score)
      && |r| == (if maxResults <= 0 then 0 else if maxResults < |qualifying| then maxResults else |qualifying|)
      && r <= qualifying
      && (forall i, j :: 0 <= i < |r| <= j < |qualifying| ==> score(qualifying[j]) <= score(r[i]))
      && multiset(r) <= multiset(s)
  {
    var ranked := Ranked(s, score);
    var qualifying := AtLeast(ranked, score, minScore);
    var r := Query(s, score, minScore, maxResults);
    RankedSorted(s, score);
    SortedAtLeastIsPrefix(ranked, score, minScore);
    PrefixSorted(qualifying, ranked, score);
    PrefixSorted(r, qualifying, score);
    PrefixSubMultiset(r, ranked);
  }

  /** The qualifying rows are exactly the table's rows at or above minScore, with their
      multiplicities. */
  lemma QualifyingRows<T>(s: seq<T>, score: T -> real, minScore: real)
    ensures forall x :: (multiset(AtLeast(Ranked(s, score), score, minScore))[x]
      == if score(x) >= minScore then multiset(s)[x] else 0)
  {
    forall x
      ensures multiset(AtLeast(Ranked(s, score), score, minScore))[x]
        == if score(x) >= minScore then multiset(s)[x] else 0
    {
      AtLeastCount(Ranked(s, score), score, minScore, x);
    }
  }

  /** A stricter threshold or a smaller limit returns a leading part of the same answer. */
  lemma QueryMonotone<T>(s: seq<T>, score: T -> real, min1: real, min2: real, max1: int, max2: int)
    requires min1 <= min2 && max2 <= max1
    ensures Query(s, score, min2, max2) <= Query(s, score, min1, max1)
  {
    var ranked := Ranked(s, score);
    RankedSorted(s, score);
    SortedAtLeastIsPrefix(ranked, score, min1);
    SortedAtLeastIsPrefix(ranked, score, min2);
    var f1, f2 := AtLeast(ranked, score, min1), AtLeast(ranked, score, min2);
    if f2 != [] {
      var last := |f2| - 1;
      assert f2[last] == ranked[last] && score(f2[last]) >= min2;
      assert last < |f1|;
    }
    assert f2 <= f1;
  }

  /** A threshold nothing reaches, or a limit of zero or less, returns no rows. */
  lemma QueryEmpty<T>(s: seq<T>, score: T -> real, minScore: real, maxResults: int)
    requires maxResults <= 0 || forall i :: 0 <= i < |s| ==> score(s[i]) < minScore
    ensures Query(s, score, minScore, maxResults) == []
  {
    var ranked := Ranked(s, score);
    if maxResults > 0 {
      forall i | 0 <= i < |ranked|
        ensures score(ranked[i]) < minScore
      {
        assert ranked[i] in multiset(s);
      }
      AtLeastNone(ranked, score, minScore);
    }
  }
}

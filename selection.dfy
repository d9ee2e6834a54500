/** Selecting: `get_summary` computes `int(N * ratio)` and asks
    `heapq.nlargest` for that many sentences of the score map, ranked by
    score. `nlargest(n, xs, key)` returns the same list as
    `sorted(xs, key=key, reverse=True)[:n]`, a stable sort, and nothing
    at all for `n <= 0`. */
module Selection {

  /** Python's `int(x)` on a float: truncation toward zero. */
  function Trunc(x: real): (n: int)
    ensures 0.0 <= x ==> 0 <= n && n as real <= x < n as real + 1.0
    ensures x < 0.0 ==> n <= 0 && n as real - 1.0 < x <= n as real
  {
    if x >= 0.0 then x.Floor else -((-x).Floor)
  }

  /** `int(len(sentence_tokens) * summary_length_ratio)`. */
  function SelectLength(n: nat, ratio: real): int {
    Trunc(n as real * ratio)
  }

  lemma TruncMonotone(x: real, y: real)
    requires x <= y
    ensures Trunc(x) <= Trunc(y)
  {
    if x < 0.0 && 0.0 <= y {
    } else if x < 0.0 {
      assert (-y).Floor <= (-x).Floor;
    } else {
      assert x.Floor <= y.Floor;
    }
  }

  lemma ScaleMonotone(n: real, r1: real, r2: real)
    requires 0.0 <= n && r1 <= r2
    ensures n * r1 <= n * r2
  {
  }

  /** A ratio in [0, 1] selects between none and all N sentences, and never
      more than `N * ratio`; a ratio of 0 selects none. */
  lemma SelectLengthRange(n: nat, ratio: real)
    requires 0.0 <= ratio <= 1.0
    ensures 0 <= SelectLength(n, ratio) <= n
    ensures SelectLength(n, ratio) as real <= n as real * ratio
    ensures ratio == 0.0 ==> SelectLength(n, ratio) == 0
  {
    var x := n as real * ratio;
    ScaleMonotone(n as real, 0.0, ratio);
    ScaleMonotone(n as real, ratio, 1.0);
    assert n as real * 0.0 == 0.0 && n as real * 1.0 == n as real;
    assert 0.0 <= x <= n as real;
  }

  /** A ratio of 1 or more asks for at least N sentences. */
  lemma SelectLengthAtLeast(n: nat, ratio: real)
    requires 1.0 <= ratio
    ensures SelectLength(n, ratio) >= n
  {
    ScaleMonotone(n as real, 1.0, ratio);
    TruncMonotone(n as real, n as real * ratio);
  }

  /** A larger ratio never selects fewer sentences. */
  lemma SelectLengthMonotone(n: nat, ratio: real, larger: real)
    requires ratio <= larger
    ensures SelectLength(n, ratio) <= SelectLength(n, larger)
  {
    ScaleMonotone(n as real, ratio, larger);
    TruncMonotone(n as real * ratio, n as real * larger);
  }

  predicate AllIn(scores: map<nat, real>, ids: seq<nat>) {
    forall i :: 0 <= i < |ids| ==> ids[i] in scores
  }

  /** Inserts `x` into a list ranked by descending score, after every element
      with a higher score and before the first one with a score no higher:
      the insertion step of a stable sort in descending order. */
  function Insert(scores: map<nat, real>, x: nat, ranked: seq<nat>): (r: seq<nat>)
    requires x in scores && AllIn(scores, ranked)
    ensures multiset(r) == multiset(ranked) + multiset{x}
    ensures AllIn(scores, r)
  {
    if ranked == [] then [x]
    else if scores[ranked[0]] <= scores[x] then [x] + ranked
    else
      assert ranked == [ranked[0]] + ranked[1..];
      [ranked[0]] + Insert(scores, x, ranked[1..])
  }

  /** `sorted(ids, key=scores.get, reverse=True)`, by stable insertion. */
  function Ranked(scores: map<nat, real>, ids: seq<nat>): (r: seq<nat>)
    requires AllIn(scores, ids)
    ensures multiset(r) == multiset(ids)
    ensures AllIn(scores, r)
  {
    if ids == [] then []
    else
      assert ids == [ids[0]] + ids[1..];
      Insert(scores, ids[0], Ranked(scores, ids[1..]))
  }

  /** The order of the ranking: higher score first, and among equal scores
      the earlier sentence first. */
  predicate Before(scores: map<nat, real>, a: nat, b: nat)
    requires a in scores && b in scores
  {
    scores[a] > scores[b] || (scores[a] == scores[b] && a < b)
  }

  predicate RankedBy(scores: map<nat, real>, r: seq<nat>)
    requires AllIn(scores, r)
  {
    forall a, b :: 0 <= a < b < |r| ==> Before(scores, r[a], r[b])
  }

  predicate Ascending(ids: seq<nat>) {
    forall a, b :: 0 <= a < b < |ids| ==> ids[a] < ids[b]
  }

  lemma {:induction false} InsertRanked(scores: map<nat, real>, x: nat, r: seq<nat>)
    requires x in scores && AllIn(scores, r) && RankedBy(scores, r)
    requires forall i :: 0 <= i < |r| ==> x < r[i]
    ensures RankedBy(scores, Insert(scores, x, r))
  {
    if r != [] && scores[r[0]] > scores[x] {
      var tail := r[1..];
      InsertRanked(scores, x, tail);
      var t := Insert(scores, x, tail);
      forall k | 0 <= k < |t| ensures Before(scores, r[0], t[k]) {
        assert t[k] in multiset(t);
        if t[k] != x {
          assert t[k] in multiset(tail);
          var j :| 0 <= j < |tail| && tail[j] == t[k];
          assert r[j + 1] == t[k];
        }
      }
    } else if r != [] {
      forall k | 0 <= k < |r| ensures Before(scores, x, r[k]) {
        if k > 0 {
          assert Before(scores, r[0], r[k]);
        }
      }
    }
  }

  /** Ranking sentences listed in document order sorts them by descending
      score, ties in document order. */
  lemma {:induction false} RankedSorted(scores: map<nat, real>, ids: seq<nat>)
    requires AllIn(scores, ids) && Ascending(ids)
    ensures RankedBy(scores, Ranked(scores, ids))
  {
    if ids != [] {
      var tail := ids[1..];
      RankedSorted(scores, tail);
      var r := Ranked(scores, tail);
      forall i | 0 <= i < |r| ensures ids[0] < r[i] {
        assert r[i] in multiset(r);
        assert r[i] in multiset(tail);
        var j :| 0 <= j < |tail| && tail[j] == r[i];
        assert ids[j + 1] == r[i];
      }
      InsertRanked(scores, ids[0], r);
    }
  }

  /** `heapq.nlargest(n, ids, key=scores.get)`: the first `n` of the
      ranking, or nothing when `n` is not positive. */
  function NLargest(scores: map<nat, real>, ids: seq<nat>, n: int): (r: seq<nat>)
    requires AllIn(scores, ids)
    ensures |r| == if n <= 0 then 0 else if n < |ids| then n else |ids|
    ensures AllIn(scores, r)
  {
    if n <= 0 then []
    else
      var ranked := Ranked(scores, ids);
      assert |multiset(ranked)| == |ids|;
      ranked[..if n < |ranked| then n else |ranked|]
  }

  /** What `nlargest` returns over sentences listed in document order: as many
      as asked for, capped by how many there are; only listed sentences, each
      once; in descending score, ties in document order; every listed sentence
      left out ranks below every one taken; asking for at least as many as
      there are takes them all. */
  lemma NLargestMeaning(scores: map<nat, real>, ids: seq<nat>, n: int)
    requires AllIn(scores, ids) && Ascending(ids)
    ensures var r := NLargest(scores, ids, n);
      && (forall i :: 0 <= i < |r| ==> r[i] in ids)
      && RankedBy(scores, r)
      && (forall x, i :: x in ids && x !in r && 0 <= i < |r| ==> Before(scores, r[i], x))
      && (n >= |ids| ==> multiset(r) == multiset(ids))
  {
    var ranked := Ranked(scores, ids);
    var r := NLargest(scores, ids, n);
    RankedSorted(scores, ids);
    assert r == ranked[..|r|];
    forall i | 0 <= i < |r| ensures r[i] in ids {
      assert r[i] == ranked[i] && ranked[i] in multiset(ranked);
    }
    forall x, i | x in ids && x !in r && 0 <= i < |r| ensures Before(scores, r[i], x) {
      assert x in multiset(ranked);
      var p :| 0 <= p < |ranked| && ranked[p] == x;
    }
    if n >= |ids| {
      assert r == ranked;
    }
  }

  /** Asking for fewer sentences returns a prefix of what asking for more
      returns. */
  lemma NLargestPrefix(scores: map<nat, real>, ids: seq<nat>, n1: int, n2: int)
    requires AllIn(scores, ids) && n1 <= n2
    ensures NLargest(scores, ids, n1) <= NLargest(scores, ids, n2)
  {
  }

  /** The positions of `scores` below `n`, ascending: the order in which the
      score map received its keys. */
  function ScoredIds(scores: map<nat, real>, n: nat): (ids: seq<nat>)
    ensures forall i :: i in ids <==> i < n && i in scores
    ensures Ascending(ids) && AllIn(scores, ids) && |ids| <= n
  {
    if n == 0 then [] else ScoredIds(scores, n - 1) + (if n - 1 in scores then [n - 1] else [])
  }

  /** The ascending key list below `n` depends only on which positions
      below `n` are keys. */
  lemma {:induction false} ScoredIdsBelow(a: map<nat, real>, b: map<nat, real>, n: nat)
    requires forall i :: i < n ==> (i in a <==> i in b)
    ensures ScoredIds(a, n) == ScoredIds(b, n)
  {
    if n > 0 {
      ScoredIdsBelow(a, b, n - 1);
    }
  }

  /** Adding or not adding position `i` to a map with no keys from `i` on
      extends the ascending key list by `i` or by nothing. */
  lemma ScoredIdsStep(before: map<nat, real>, after: map<nat, real>, i: nat)
    requires forall k :: k in before ==> k < i
    requires after - {i} == before
    ensures ScoredIds(after, i + 1) == ScoredIds(before, i) + (if i in after then [i] else [])
  {
    assert forall k :: k < i ==> (k in before <==> k in after);
    ScoredIdsBelow(before, after, i);
  }

  /** A list in strictly ascending order holding exactly the elements of a
      set is as long as the set is large. */
  lemma {:induction false} AscendingSize(ids: seq<nat>, elems: set<nat>)
    requires Ascending(ids)
    requires forall x :: x in ids <==> x in elems
    ensures |ids| == |elems|
  {
    if ids != [] {
      var last := ids[|ids| - 1];
      var init := ids[..|ids| - 1];
      forall x ensures x in init <==> x in elems - {last} {
        if x in init {
          var j :| 0 <= j < |init| && init[j] == x;
          assert ids[j] == x;
        }
        if x in elems - {last} {
          var j :| 0 <= j < |ids| && ids[j] == x;
          assert j != |ids| - 1;
          assert init[j] == x;
        }
      }
      AscendingSize(init, elems - {last});
    }
  }
}

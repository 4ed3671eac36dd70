/**
 * `list.sort(key=lambda x: x[0], reverse=True)` on `(score, item)` pairs:
 * Python's sort is stable, also when reversed, so items of equal score keep
 * their relative order. Defined here by repeatedly moving all items of the
 * highest remaining score to the front.
 */
module Ranking {

  /** The items of `xs` whose score is `v`, in order. */
  function WithScore<T>(xs: seq<(int, T)>, v: int): (r: seq<(int, T)>)
    ensures |r| <= |xs|
    ensures forall i :: 0 <= i < |r| ==> r[i].0 == v
    ensures forall x :: x in r ==> x in xs
    ensures forall x :: x in xs && x.0 == v ==> x in r
    ensures (exists i :: 0 <= i < |xs| && xs[i].0 == v) ==> r != []
  {
    if xs == [] then []
    else
      assert forall x :: x in xs ==> x == xs[0] || x in xs[1..];
      (if xs[0].0 == v then [xs[0]] else []) + WithScore(xs[1..], v)
  }

  /** The items of `xs` whose score is not `v`, in order. */
  function WithoutScore<T>(xs: seq<(int, T)>, v: int): (r: seq<(int, T)>)
    ensures |r| <= |xs|
    ensures forall i :: 0 <= i < |r| ==> r[i].0 != v
    ensures forall x :: x in r ==> x in xs
    ensures (exists i :: 0 <= i < |xs| && xs[i].0 == v) ==> |r| < |xs|
  {
    if xs == [] then []
    else
      var rest := WithoutScore(xs[1..], v);
      if xs[0].0 == v then rest
      else
        assert forall i :: 1 <= i < |xs| ==> xs[i] == xs[1..][i - 1];
        [xs[0]] + rest
  }

  /** The highest score in a non-empty `xs`. */
  function TopScore<T>(xs: seq<(int, T)>): (m: int)
    requires xs != []
    ensures exists i :: 0 <= i < |xs| && xs[i].0 == m
    ensures forall i :: 0 <= i < |xs| ==> xs[i].0 <= m
  {
    if |xs| == 1 then xs[0].0
    else
      var m := TopScore(xs[1..]);
      assert forall i :: 1 <= i < |xs| ==> xs[i] == xs[1..][i - 1];
      if xs[0].0 < m then m else xs[0].0
  }

  /** The stable sort by descending score; it keeps the number of items. */
  function SortDesc<T>(xs: seq<(int, T)>): (r: seq<(int, T)>)
    ensures |r| == |xs|
    decreases |xs|
  {
    if xs == [] then []
    else
      var m := TopScore(xs);
      SplitLength(xs, m);
      WithScore(xs, m) + SortDesc(WithoutScore(xs, m))
  }

  predicate Descending<T>(xs: seq<(int, T)>) {
    forall i, j :: 0 <= i < j < |xs| ==> xs[i].0 >= xs[j].0
  }

  lemma {:induction false} SplitByScore<T>(xs: seq<(int, T)>, v: int)
    ensures multiset(WithScore(xs, v)) + multiset(WithoutScore(xs, v)) == multiset(xs)
  {
    if xs != [] {
      SplitByScore(xs[1..], v);
      WithScoreCons(xs, v);
      WithoutScoreCons(xs, v);
      assert multiset(xs) == multiset{xs[0]} + multiset(xs[1..]) by {
        assert xs == [xs[0]] + xs[1..];
      }
    }
  }

  /** Splitting by a score neither drops nor duplicates items. */
  lemma {:induction false} SplitLength<T>(xs: seq<(int, T)>, v: int)
    ensures |WithScore(xs, v)| + |WithoutScore(xs, v)| == |xs|
  {
    if xs != [] {
      SplitLength(xs[1..], v);
      WithScoreCons(xs, v);
      WithoutScoreCons(xs, v);
    }
  }

  /** One step of `WithoutScore`. */
  lemma WithoutScoreCons<T>(xs: seq<(int, T)>, v: int)
    requires xs != []
    ensures WithoutScore(xs, v) == (if xs[0].0 == v then WithoutScore(xs[1..], v) else [xs[0]] + WithoutScore(xs[1..], v))
  {
  }

  /** The sort only reorders: the result is a permutation of the input. */
  lemma {:induction false} SortDescPermutes<T>(xs: seq<(int, T)>)
    ensures multiset(SortDesc(xs)) == multiset(xs)
    decreases |xs|
  {
    if xs != [] {
      var m := TopScore(xs);
      SortDescPermutes(WithoutScore(xs, m));
      SplitByScore(xs, m);
    }
  }

  /** Scores come out non-increasing. */
  lemma {:induction false} SortDescDescending<T>(xs: seq<(int, T)>)
    ensures Descending(SortDesc(xs))
    decreases |xs|
  {
    if xs != [] {
      var m := TopScore(xs);
      var front, rest := WithScore(xs, m), WithoutScore(xs, m);
      var sortedRest := SortDesc(rest);
      SortDescDescending(rest);
      SortDescPermutes(rest);
      forall j | 0 <= j < |sortedRest| ensures sortedRest[j].0 < m {
        assert sortedRest[j] in multiset(sortedRest);
        assert sortedRest[j] in rest;
      }
      DescendingConcat(front, sortedRest, m);
    }
  }

  /** Items all scored `m` followed by a descending run of lower scores are descending. */
  lemma DescendingConcat<T>(front: seq<(int, T)>, rest: seq<(int, T)>, m: int)
    requires forall i :: 0 <= i < |front| ==> front[i].0 == m
    requires forall j :: 0 <= j < |rest| ==> rest[j].0 < m
    requires Descending(rest)
    ensures Descending(front + rest)
  {
    var r := front + rest;
    forall i, j | 0 <= i < j < |r| ensures r[i].0 >= r[j].0 {
      if j < |front| {
      } else if i < |front| {
        assert r[j] == rest[j - |front|];
      } else {
        assert r[i] == rest[i - |front|] && r[j] == rest[j - |front|];
      }
    }
  }

  lemma {:induction false} WithScoreAppend<T>(a: seq<(int, T)>, b: seq<(int, T)>, v: int)
    ensures WithScore(a + b, v) == WithScore(a, v) + WithScore(b, v)
  {
    if a == [] {
      assert a + b == b;
    } else {
      assert (a + b)[1..] == a[1..] + b;
      WithScoreAppend(a[1..], b, v);
    }
  }

  lemma {:induction false} WithScoreOfWithScore<T>(xs: seq<(int, T)>, v: int, w: int)
    ensures WithScore(WithScore(xs, v), w) == if v == w then WithScore(xs, v) else []
  {
    if xs != [] {
      WithScoreOfWithScore(xs[1..], v, w);
      WithScoreAppend(if xs[0].0 == v then [xs[0]] else [], WithScore(xs[1..], v), w);
    }
  }

  lemma {:induction false} WithScoreOfWithoutScore<T>(xs: seq<(int, T)>, v: int, w: int)
    ensures WithScore(WithoutScore(xs, v), w) == if v == w then [] else WithScore(xs, w)
  {
    if xs != [] {
      WithScoreOfWithoutScore(xs[1..], v, w);
      if xs[0].0 != v {
        assert WithoutScore(xs, v) == [xs[0]] + WithoutScore(xs[1..], v);
        WithScoreAppend([xs[0]], WithoutScore(xs[1..], v), w);
      }
    }
  }

  /** Stability: for every score, the items with that score appear in the same order as in the input. */
  lemma {:induction false} SortDescStable<T>(xs: seq<(int, T)>, v: int)
    ensures WithScore(SortDesc(xs), v) == WithScore(xs, v)
    decreases |xs|
  {
    if xs != [] {
      var m := TopScore(xs);
      var front, rest := WithScore(xs, m), WithoutScore(xs, m);
      SortDescStable(rest, v);
      WithScoreAppend(front, SortDesc(rest), v);
      WithScoreOfWithScore(xs, m, v);
      WithScoreOfWithoutScore(xs, m, v);
    }
  }

  /** `a` occurs in `xs` at an earlier position than `b`. */
  ghost predicate Before<T>(xs: seq<T>, a: T, b: T) {
    exists p, q :: 0 <= p < q < |xs| && xs[p] == a && xs[q] == b
  }

  lemma BeforeCons<T>(x: T, xs: seq<T>, a: T, b: T)
    requires Before(xs, a, b)
    ensures Before([x] + xs, a, b)
  {
    var p, q :| 0 <= p < q < |xs| && xs[p] == a && xs[q] == b;
    var ys := [x] + xs;
    assert ys[p + 1] == a && ys[q + 1] == b;
  }

  lemma BeforeHead<T>(x: T, xs: seq<T>, b: T)
    requires b in xs
    ensures Before([x] + xs, x, b)
  {
    var q :| 0 <= q < |xs| && xs[q] == b;
    var ys := [x] + xs;
    assert ys[0] == x && ys[q + 1] == b;
  }

  /** Two items of score `v` keep their relative order among the items of that score. */
  lemma {:induction false} BeforeWithScore<T>(xs: seq<(int, T)>, v: int, x: (int, T), y: (int, T))
    requires Before(xs, x, y) && x.0 == v && y.0 == v
    ensures Before(WithScore(xs, v), x, y)
  {
    var p, q :| 0 <= p < q < |xs| && xs[p] == x && xs[q] == y;
    var tail := xs[1..];
    var w := WithScore(tail, v);
    assert xs == [xs[0]] + tail;
    assert tail[q - 1] == y;
    if p == 0 {
      assert WithScore(xs, v) == [x] + w;
      BeforeHead(x, w, y);
    } else {
      assert tail[p - 1] == x;
      BeforeWithScore(tail, v, x, y);
      if xs[0].0 == v {
        assert WithScore(xs, v) == [xs[0]] + w;
        BeforeCons(xs[0], w, x, y);
      } else {
        assert WithScore(xs, v) == w;
      }
    }
  }

  /** The items of one score form a subsequence: their order is their order in `xs`. */
  lemma {:induction false} WithScoreBefore<T>(xs: seq<(int, T)>, v: int, x: (int, T), y: (int, T))
    requires Before(WithScore(xs, v), x, y)
    ensures Before(xs, x, y)
  {
    var ws := WithScore(xs, v);
    var p, q :| 0 <= p < q < |ws| && ws[p] == x && ws[q] == y;
    var tail := xs[1..];
    var w := WithScore(tail, v);
    WithScoreCons(xs, v);
    if xs[0].0 == v {
      ConsIndex(xs[0], w, p, q);
      if p == 0 {
        BeforeFirst(xs, y);
        return;
      }
      BeforeAt(w, p - 1, q - 1);
    } else {
      BeforeAt(w, p, q);
    }
    WithScoreBefore(tail, v, x, y);
    BeforeInTail(xs, x, y);
  }

  lemma BeforeInTail<T>(xs: seq<T>, a: T, b: T)
    requires xs != [] && Before(xs[1..], a, b)
    ensures Before(xs, a, b)
  {
    var p, q :| 0 <= p < q < |xs| - 1 && xs[1..][p] == a && xs[1..][q] == b;
    assert xs[p + 1] == a && xs[q + 1] == b;
  }

  lemma BeforeFirst<T>(xs: seq<T>, b: T)
    requires xs != [] && b in xs[1..]
    ensures Before(xs, xs[0], b)
  {
    var q :| 0 <= q < |xs| - 1 && xs[1..][q] == b;
    assert xs[q + 1] == b;
  }

  lemma BeforeAt<T>(xs: seq<T>, p: int, q: int)
    requires 0 <= p < q < |xs|
    ensures Before(xs, xs[p], xs[q])
  {
  }

  /** One step of `WithScore`. */
  lemma WithScoreCons<T>(xs: seq<(int, T)>, v: int)
    requires xs != []
    ensures WithScore(xs, v) == (if xs[0].0 == v then [xs[0]] + WithScore(xs[1..], v) else WithScore(xs[1..], v))
  {
  }

  /** Positions `p < q` of `[h] + w`, read back in `w`. */
  lemma ConsIndex<T>(h: T, w: seq<T>, p: int, q: int)
    requires 0 <= p < q <= |w|
    ensures ([h] + w)[0] == h && ([h] + w)[q] == w[q - 1] && (p > 0 ==> ([h] + w)[p] == w[p - 1])
  {
  }

  /** Stability on positions: two items of equal score come out of the sort in the order they went in. */
  lemma SortDescKeepsTies<T>(xs: seq<(int, T)>, x: (int, T), y: (int, T))
    requires x.0 == y.0
    ensures Before(SortDesc(xs), x, y) <==> Before(xs, x, y)
  {
    SortDescStable(xs, x.0);
    if Before(SortDesc(xs), x, y) {
      BeforeWithScore(SortDesc(xs), x.0, x, y);
      WithScoreBefore(xs, x.0, x, y);
    }
    if Before(xs, x, y) {
      BeforeWithScore(xs, x.0, x, y);
      WithScoreBefore(SortDesc(xs), x.0, x, y);
    }
  }
}

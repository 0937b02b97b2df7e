/**
 * Ranking by score, highest first, as Python's `list.sort(key=..., reverse=True)`
 * does it: the sort is stable, so candidates with equal scores keep the order
 * they had before sorting.  Candidates travel together with the score they
 * were given, and the sort looks only at that score.
 */
module Ranking {

  /** Scores never increase along `s`. */
  predicate NonIncreasing<T>(s: seq<(T, real)>)
  {
    forall i, j :: 0 <= i < j < |s| ==> s[i].1 >= s[j].1
  }

  /** The candidates of `s` whose score is `k`, in their order in `s`. */
  function WithScore<T>(s: seq<(T, real)>, k: real): seq<(T, real)>
  {
    if |s| == 0 then [] else (if s[0].1 == k then [s[0]] else []) + WithScore(s[1..], k)
  }

  /** The candidates without their scores. */
  function Items<T>(s: seq<(T, real)>): (r: seq<T>)
    ensures |r| == |s| && forall i :: 0 <= i < |s| ==> r[i] == s[i].0
  {
    seq(|s|, i requires 0 <= i < |s| => s[i].0)
  }

  /** Places `x` in front of the first candidate of `s` that does not score higher. */
  function Insert<T>(x: (T, real), s: seq<(T, real)>): (r: seq<(T, real)>)
    requires NonIncreasing(s)
    ensures multiset(r) == multiset(s) + multiset{x}
    ensures |r| == |s| + 1 && (r[0] == x || (|s| > 0 && r[0] == s[0]))
    ensures NonIncreasing(r)
  {
    if |s| == 0 || x.1 >= s[0].1 then
      ConsNonIncreasing(x, s);
      [x] + s
    else
      TailNonIncreasing(s);
      var t := Insert(x, s[1..]);
      assert s[0].1 >= t[0].1 by {
        if t[0] != x {
          assert s[1..][0] == s[1];
        }
      }
      ConsNonIncreasing(s[0], t);
      HeadMultiset(s);
      [s[0]] + t
  }

  lemma TailNonIncreasing<T>(s: seq<(T, real)>)
    requires NonIncreasing(s) && |s| > 0
    ensures NonIncreasing(s[1..])
  {
    forall i, j | 0 <= i < j < |s[1..]|
      ensures s[1..][i].1 >= s[1..][j].1
    {
      assert s[1..][i] == s[i + 1] && s[1..][j] == s[j + 1];
    }
  }

  lemma HeadMultiset<T>(s: seq<T>)
    requires |s| > 0
    ensures multiset(s) == multiset{s[0]} + multiset(s[1..])
  {
    assert s == [s[0]] + s[1..];
  }

  /** A candidate scoring at least as high as the head of `t` can go in front of it. */
  lemma ConsNonIncreasing<T>(y: (T, real), t: seq<(T, real)>)
    requires NonIncreasing(t)
    requires |t| > 0 ==> y.1 >= t[0].1
    ensures NonIncreasing([y] + t)
  {
    forall i, j | 0 <= i < j < |[y] + t|
      ensures ([y] + t)[i].1 >= ([y] + t)[j].1
    {
      if i == 0 {
        assert ([y] + t)[j] == t[j - 1];
      } else {
        assert ([y] + t)[i] == t[i - 1] && ([y] + t)[j] == t[j - 1];
      }
    }
  }

  /** Stable sort by score, highest first. */
  function SortByScore<T>(s: seq<(T, real)>): (r: seq<(T, real)>)
    ensures multiset(r) == multiset(s)
    ensures NonIncreasing(r)
  {
    if |s| == 0 then [] else
      HeadMultiset(s);
      Insert(s[0], SortByScore(s[1..]))
  }

  lemma WithScoreCons<T>(y: (T, real), t: seq<(T, real)>, k: real)
    ensures WithScore([y] + t, k) == (if y.1 == k then [y] else []) + WithScore(t, k)
  {
    assert ([y] + t)[1..] == t;
  }

  lemma {:induction false} InsertStable<T>(x: (T, real), s: seq<(T, real)>, k: real)
    requires NonIncreasing(s)
    ensures WithScore(Insert(x, s), k) == (if x.1 == k then [x] else []) + WithScore(s, k)
    decreases |s|
  {
    if |s| == 0 || x.1 >= s[0].1 {
      WithScoreCons(x, s, k);
    } else {
      var t := Insert(x, s[1..]);
      InsertStable(x, s[1..], k);
      WithScoreCons(s[0], t, k);
      var ws := if s[0].1 == k then [s[0]] else [];
      var wx := if x.1 == k then [x] else [];
      assert WithScore(s, k) == ws + WithScore(s[1..], k);
      assert ws == [] || wx == [];
      calc {
        WithScore(Insert(x, s), k);
        ws + (wx + WithScore(s[1..], k));
        { Swap(ws, wx, WithScore(s[1..], k)); }
        wx + (ws + WithScore(s[1..], k));
      }
    }
  }

  /** Two pieces of which at most one is non-empty can be swapped. */
  lemma Swap<T>(a: seq<T>, b: seq<T>, c: seq<T>)
    requires a == [] || b == []
    ensures a + (b + c) == b + (a + c)
  {
    if a == [] {
      assert a + (b + c) == b + c && b + (a + c) == b + c;
    } else {
      assert a + (b + c) == a + c && b + (a + c) == a + c;
    }
  }

  /**
   * Stability: for every score, the candidates carrying it appear in the
   * sorted sequence in exactly the order they had in the input.
   */
  lemma {:induction false} SortStable<T>(s: seq<(T, real)>, k: real)
    ensures WithScore(SortByScore(s), k) == WithScore(s, k)
    decreases |s|
  {
    if |s| != 0 {
      SortStable(s[1..], k);
      InsertStable(s[0], SortByScore(s[1..]), k);
    }
  }

  lemma ItemsCons<T>(y: (T, real), t: seq<(T, real)>)
    ensures Items([y] + t) == [y.0] + Items(t)
  {
  }

  lemma ItemsMultisetCons<T>(y: (T, real), t: seq<(T, real)>)
    ensures multiset(Items([y] + t)) == multiset{y.0} + multiset(Items(t))
  {
    ItemsCons(y, t);
    assert multiset([y.0] + Items(t)) == multiset([y.0]) + multiset(Items(t));
  }

  lemma ItemsMultisetHead<T>(s: seq<(T, real)>)
    requires |s| > 0
    ensures multiset(Items(s)) == multiset{s[0].0} + multiset(Items(s[1..]))
  {
    assert s == [s[0]] + s[1..];
    ItemsMultisetCons(s[0], s[1..]);
  }

  lemma {:induction false} InsertKeepsItems<T>(x: (T, real), s: seq<(T, real)>)
    requires NonIncreasing(s)
    ensures multiset(Items(Insert(x, s))) == multiset(Items(s)) + multiset{x.0}
    decreases |s|
  {
    if |s| == 0 || x.1 >= s[0].1 {
      ItemsMultisetCons(x, s);
    } else {
      var t := Insert(x, s[1..]);
      InsertKeepsItems(x, s[1..]);
      ItemsMultisetCons(s[0], t);
      ItemsMultisetHead(s);
    }
  }

  /** Sorting only reorders: every candidate comes out as often as it went in. */
  lemma {:induction false} SortKeepsItems<T>(s: seq<(T, real)>)
    ensures multiset(Items(SortByScore(s))) == multiset(Items(s))
    decreases |s|
  {
    if |s| != 0 {
      SortKeepsItems(s[1..]);
      InsertKeepsItems(s[0], SortByScore(s[1..]));
      ItemsMultisetHead(s);
    }
  }

  /** `s[:n]` for a non-negative `n` keeps the order, so it stays sorted. */
  lemma TakeNonIncreasing<T>(s: seq<(T, real)>, n: nat)
    requires NonIncreasing(s) && n <= |s|
    ensures NonIncreasing(s[..n])
  {
  }

  /**
   * A prefix of a sorted sequence holds its best candidates: a candidate the
   * prefix leaves out scores no higher than any candidate it keeps.
   */
  lemma TakeDominates<T>(s: seq<(T, real)>, n: nat, q: (T, real), p: (T, real))
    requires NonIncreasing(s) && n <= |s|
    requires q in s && q.0 !in Items(s[..n]) && p in s[..n]
    ensures q.1 <= p.1
  {
    var j :| 0 <= j < |s| && s[j] == q;
    var a :| 0 <= a < n && s[..n][a] == p;
  }

}

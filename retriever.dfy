/**
 * The ranking step of `_retrieve`: given one similarity score per chunk,
 * the `min(top_k, n)` best chunks, highest score first. The source picks
 * them with `argpartition` and sorts them; this model sorts all indices
 * by descending score (ties by index) and keeps the first `k`. Which of
 * several equally scored chunks the source keeps, and in which order, is
 * unspecified; the properties proved here hold for any such choice.
 */
module Retriever {
  import opened Wrappers

  predicate InRange(s: seq<nat>, n: nat)
  {
    forall i :: 0 <= i < |s| ==> s[i] < n
  }

  predicate Distinct(s: seq<nat>)
  {
    forall i, j :: 0 <= i < j < |s| ==> s[i] != s[j]
  }

  /** Adjacent indices in non-increasing score order. */
  predicate Desc(scores: seq<real>, s: seq<nat>)
    requires InRange(s, |scores|)
    decreases |s|
  {
    |s| < 2 || (scores[s[0]] >= scores[s[1]] && Desc(scores, s[1..]))
  }

  /** Every index ranked before another has a score at least as high. */
  predicate Ranked(scores: seq<real>, s: seq<nat>)
    requires InRange(s, |scores|)
  {
    forall i, j :: 0 <= i < j < |s| ==> scores[s[i]] >= scores[s[j]]
  }

  /** `x` goes in front of the first index with a strictly lower score. */
  function Insert(scores: seq<real>, x: nat, s: seq<nat>): (r: seq<nat>)
    requires x < |scores| && InRange(s, |scores|)
    ensures |r| == |s| + 1 && InRange(r, |scores|)
    ensures multiset(r) == multiset(s) + multiset{x}
    ensures r[0] == x || (s != [] && r[0] == s[0])
    decreases |s|
  {
    if s == [] || scores[x] > scores[s[0]] then [x] + s
    else
      assert s == [s[0]] + s[1..];
      [s[0]] + Insert(scores, x, s[1..])
  }

  lemma {:induction false} InsertDesc(scores: seq<real>, x: nat, s: seq<nat>)
    requires x < |scores| && InRange(s, |scores|) && Desc(scores, s)
    ensures Desc(scores, Insert(scores, x, s))
    decreases |s|
  {
    if s != [] && scores[x] <= scores[s[0]] {
      var t := Insert(scores, x, s[1..]);
      InsertDesc(scores, x, s[1..]);
      assert Insert(scores, x, s) == [s[0]] + t;
      assert ([s[0]] + t)[1..] == t;
    }
  }

  lemma DistinctCons(a: nat, t: seq<nat>)
    requires a !in t && Distinct(t)
    ensures Distinct([a] + t)
  {
    var s := [a] + t;
    forall i, j | 0 <= i < j < |s|
      ensures s[i] != s[j]
    {
      assert s[j] == t[j - 1];
      if i > 0 {
        assert s[i] == t[i - 1];
      }
    }
  }

  lemma {:induction false} InsertDistinct(scores: seq<real>, x: nat, s: seq<nat>)
    requires x < |scores| && InRange(s, |scores|) && Distinct(s) && x !in s
    ensures Distinct(Insert(scores, x, s))
    decreases |s|
  {
    if s == [] || scores[x] > scores[s[0]] {
      DistinctCons(x, s);
    } else {
      var t := Insert(scores, x, s[1..]);
      assert Distinct(s[1..]) by {
        forall i, j | 0 <= i < j < |s[1..]|
          ensures s[1..][i] != s[1..][j]
        {
          assert s[1..][i] == s[i + 1] && s[1..][j] == s[j + 1];
        }
      }
      InsertDistinct(scores, x, s[1..]);
      assert s[0] !in t by {
        assert s[0] !in s[1..] by {
          forall j | 0 <= j < |s[1..]|
            ensures s[1..][j] != s[0]
          {
            assert s[1..][j] == s[j + 1];
          }
        }
        assert s[0] in s;
        assert multiset(t) == multiset(s[1..]) + multiset{x};
        assert s[0] !in multiset(s[1..]) && s[0] != x;
        assert s[0] !in multiset(t);
      }
      DistinctCons(s[0], t);
    }
  }

  /** Indices `0..i-1` sorted by descending score. */
  function SortUpTo(scores: seq<real>, i: nat): (r: seq<nat>)
    requires i <= |scores|
    ensures |r| == i && InRange(r, |scores|)
    decreases i
  {
    if i == 0 then [] else Insert(scores, i - 1, SortUpTo(scores, i - 1))
  }

  /** The sorted indices are `0..i-1`, each once, in non-increasing score order. */
  lemma {:induction false} SortUpToSorted(scores: seq<real>, i: nat)
    requires i <= |scores|
    ensures var r := SortUpTo(scores, i);
      Desc(scores, r) && Distinct(r) && multiset(r) == multiset(Upto(i))
    decreases i
  {
    if i > 0 {
      var s := SortUpTo(scores, i - 1);
      SortUpToSorted(scores, i - 1);
      InsertDesc(scores, i - 1, s);
      var m: nat := i - 1;
      assert m !in s by {
        UptoBelow(m);
        assert m !in multiset(Upto(m));
      }
      InsertDistinct(scores, m, s);
    }
  }

  /** `range(i)`. */
  function Upto(i: nat): (r: seq<nat>)
    ensures |r| == i
    decreases i
  {
    if i == 0 then [] else Upto(i - 1) + [i - 1]
  }

  lemma {:induction false} UptoBelow(i: nat)
    ensures forall v: nat :: v in multiset(Upto(i)) <==> v < i
    decreases i
  {
    if i > 0 {
      UptoBelow(i - 1);
      assert multiset(Upto(i)) == multiset(Upto(i - 1)) + multiset{(i - 1) as nat};
    }
  }

  /** Adjacent order extends to every pair. */
  lemma {:induction false} DescRanked(scores: seq<real>, s: seq<nat>)
    requires InRange(s, |scores|) && Desc(scores, s)
    ensures Ranked(scores, s)
    decreases |s|
  {
    if |s| >= 2 {
      DescRanked(scores, s[1..]);
      forall i, j | 0 <= i < j < |s|
        ensures scores[s[i]] >= scores[s[j]]
      {
        if i > 0 {
          assert s[i] == s[1..][i - 1] && s[j] == s[1..][j - 1];
        } else if j > 1 {
          assert s[1] == s[1..][0] && s[j] == s[1..][j - 1];
        }
      }
    }
  }

  /** All indices by descending score. */
  function SortByScore(scores: seq<real>): (r: seq<nat>)
    ensures |r| == |scores| && InRange(r, |scores|)
  {
    SortUpTo(scores, |scores|)
  }

  /** Every index appears exactly once in the ranking, and it is ordered by descending score. */
  lemma SortByScoreRanks(scores: seq<real>)
    ensures var r := SortByScore(scores);
      Ranked(scores, r) && Distinct(r) && forall v: nat :: v in r <==> v < |scores|
  {
    var r := SortByScore(scores);
    SortUpToSorted(scores, |scores|);
    DescRanked(scores, r);
    UptoBelow(|scores|);
    forall v: nat
      ensures v in r <==> v < |scores|
    {
      assert v in r <==> v in multiset(r);
    }
  }

  /** The indices `_retrieve` keeps: the first `min(top_k, n)` of the ranking. */
  function TopK(scores: seq<real>, topK: nat): (r: seq<nat>)
    ensures |r| == Min(topK, |scores|) && InRange(r, |scores|)
  {
    SortByScore(scores)[..Min(topK, |scores|)]
  }

  /**
   * `min(top_k, n)` distinct chunk indices, highest score first, and no
   * chunk left out scores higher than one kept.
   */
  lemma TopKCorrect(scores: seq<real>, topK: nat)
    ensures var r := TopK(scores, topK);
      Distinct(r) && Ranked(scores, r) &&
      forall i, j :: 0 <= i < |r| && 0 <= j < |scores| && j !in r ==> scores[r[i]] >= scores[j]
  {
    var s := SortByScore(scores);
    var k := Min(topK, |scores|);
    var r := TopK(scores, topK);
    SortByScoreRanks(scores);
    forall i, j | 0 <= i < |r| && 0 <= j < |scores| && j !in r
      ensures scores[r[i]] >= scores[j]
    {
      assert j in s;
      var q :| 0 <= q < |s| && s[q] == j;
      assert forall p :: 0 <= p < k ==> r[p] == s[p];
      assert q >= k;
      assert r[i] == s[i];
    }
  }

  /**
   * `_retrieve`'s result once the query's similarities are known: the
   * chunks at the `TopK` positions, each with its own score, best first,
   * and no chunk left out scoring higher than one returned.
   */
  function Retrieve<T>(chunks: seq<T>, scores: seq<real>, topK: nat): (r: seq<(T, real)>)
    requires |chunks| == |scores| && 1 <= |scores|
    ensures |r| == Min(topK, |chunks|)
    ensures forall i :: 0 <= i < |r| ==>
      r[i] == (chunks[TopK(scores, topK)[i]], scores[TopK(scores, topK)[i]])
    ensures forall i, j :: 0 <= i < j < |r| ==> r[i].1 >= r[j].1
    ensures forall i, j :: 0 <= i < |r| && 0 <= j < |scores| && j !in TopK(scores, topK) ==> r[i].1 >= scores[j]
  {
    var idx := TopK(scores, topK);
    TopKCorrect(scores, topK);
    seq(|idx|, i requires 0 <= i < |idx| => (chunks[idx[i]], scores[idx[i]]))
  }
}

/** Python's `sorted(d, key=d.get, reverse=True)` over a dictionary whose keys are
    positions 0..|scores|-1 in insertion order. The sort is stable, so among equal
    scores the earlier position stays first. */
module Ranking {
  import opened Seqs

  /** Position `i` is ranked before position `j`: a higher score, or an equal score and an earlier position. */
  predicate Ahead(scores: seq<real>, i: nat, j: nat)
    requires i < |scores| && j < |scores|
  {
    scores[i] > scores[j] || (scores[i] == scores[j] && i < j)
  }

  /** Every element of `r` is a position of `scores`, and `r` lists them in ranking order. */
  predicate RankedBy(scores: seq<real>, r: seq<nat>) {
    (forall k :: 0 <= k < |r| ==> r[k] < |scores|) &&
    (forall a, b :: 0 <= a < b < |r| ==> Ahead(scores, r[a], r[b]))
  }

  /** Inserts position `i`, earlier than every position in `r`, in front of the first position scoring no more than it. */
  function Insert(scores: seq<real>, i: nat, r: seq<nat>): (q: seq<nat>)
    requires i < |scores| && RankedBy(scores, r)
    requires forall k :: 0 <= k < |r| ==> i < r[k]
    ensures |q| == |r| + 1
    ensures forall x :: x in q <==> x == i || x in r
    ensures RankedBy(scores, q)
  {
    if r == [] || scores[r[0]] <= scores[i] then [i] + r
    else
      var t := Insert(scores, i, r[1..]);
      assert forall x :: x in r ==> x == r[0] || x in r[1..];
      assert forall b :: 0 <= b < |t| ==> Ahead(scores, r[0], t[b]) by {
        forall b | 0 <= b < |t| ensures Ahead(scores, r[0], t[b]) {
          if t[b] != i {
            assert t[b] in t;
            var c :| 0 <= c < |r[1..]| && r[1..][c] == t[b];
            assert r[c + 1] == t[b];
          }
        }
      }
      [r[0]] + t
  }

  /** The positions `k`..|scores|-1 in ranking order. */
  function RankFrom(scores: seq<real>, k: nat): (r: seq<nat>)
    requires k <= |scores|
    ensures |r| == |scores| - k
    ensures forall x :: x in r <==> k <= x < |scores|
    ensures RankedBy(scores, r)
    decreases |scores| - k
  {
    if k == |scores| then []
    else
      var t := RankFrom(scores, k + 1);
      assert forall j :: 0 <= j < |t| ==> t[j] in t;
      Insert(scores, k, t)
  }

  /** The stable descending sort of all positions by score: a permutation of 0..|scores|-1
      in which each position is Ahead of every later one. */
  function Ranked(scores: seq<real>): (r: seq<nat>)
    ensures |r| == |scores|
    ensures forall x :: x in r <==> 0 <= x < |scores|
    ensures RankedBy(scores, r)
  {
    RankFrom(scores, 0)
  }

  /** A ranking lists each position once. */
  lemma RankedDistinct(scores: seq<real>, r: seq<nat>)
    requires RankedBy(scores, r)
    ensures NoDuplicates(r)
  {
    forall a, b | 0 <= a < b < |r| ensures r[a] != r[b] {
      assert Ahead(scores, r[a], r[b]);
    }
  }

  /** Two rankings of the same positions are the same sequence: Ranked is the only order RankedBy admits. */
  lemma {:induction false} RankingUnique(scores: seq<real>, r: seq<nat>, q: seq<nat>)
    requires RankedBy(scores, r) && RankedBy(scores, q)
    requires forall x :: x in r <==> x in q
    requires |r| == |q|
    ensures r == q
  {
    if r != [] {
      RankedDistinct(scores, r);
      RankedDistinct(scores, q);
      assert r[0] in q;
      assert q[0] in r;
      assert r[0] == q[0];
      forall x ensures x in r[1..] <==> x in q[1..] {
        if x in r[1..] {
          var a :| 1 <= a < |r| && r[a] == x;
          assert x != r[0];
          assert x in q;
        }
        if x in q[1..] {
          var a :| 1 <= a < |q| && q[a] == x;
          assert x != q[0];
          assert x in r;
        }
      }
      RankingUnique(scores, r[1..], q[1..]);
    }
  }

  /** The first `n` of a ranking are the top `n`: every position left out is behind every one kept. */
  lemma TakeIsTop(scores: seq<real>, n: int, k: nat)
    requires k < |scores| && k !in Take(Ranked(scores), n)
    ensures forall a :: 0 <= a < |Take(Ranked(scores), n)| ==> Ahead(scores, Take(Ranked(scores), n)[a], k)
  {
    var r := Ranked(scores);
    var t := Take(r, n);
    assert k in r;
    var p :| 0 <= p < |r| && r[p] == k;
    assert p >= |t|;
    forall a | 0 <= a < |t| ensures Ahead(scores, t[a], k) {
      assert t[a] == r[a];
    }
  }
}

/** Sequence operations that stand for Python list built-ins and comprehensions. */
module Seqs {

  /** `s.count(x)`. */
  function Count<T(==)>(s: seq<T>, x: T): (c: nat)
    ensures c <= |s|
    ensures c > 0 <==> x in s
  {
    if s == [] then 0 else (if s[0] == x then 1 else 0) + Count(s[1..], x)
  }

  /** Appending an element adds one to its count and nothing to any other. */
  lemma {:induction false} CountSnoc<T>(s: seq<T>, x: T, y: T)
    ensures Count(s + [x], y) == Count(s, y) + (if x == y then 1 else 0)
  {
    if s != [] {
      assert (s + [x])[1..] == s[1..] + [x];
      CountSnoc(s[1..], x, y);
    } else {
      assert [x][1..] == [];
    }
  }

  /** `a` is `b` with some elements left out and the rest kept in order. */
  ghost predicate IsSubsequence<T>(a: seq<T>, b: seq<T>)
    decreases |b|
  {
    a == [] || (b != [] && ((a[0] == b[0] && IsSubsequence(a[1..], b[1..])) || IsSubsequence(a, b[1..])))
  }

  lemma {:induction false} SubsequenceLength<T>(a: seq<T>, b: seq<T>)
    requires IsSubsequence(a, b)
    ensures |a| <= |b|
    decreases |b|
  {
    if a != [] {
      if a[0] == b[0] && IsSubsequence(a[1..], b[1..]) {
        SubsequenceLength(a[1..], b[1..]);
      } else {
        SubsequenceLength(a, b[1..]);
      }
    }
  }

  lemma {:induction false} SubsequenceTransitive<T>(a: seq<T>, b: seq<T>, c: seq<T>)
    requires IsSubsequence(a, b) && IsSubsequence(b, c)
    ensures IsSubsequence(a, c)
    decreases |c|
  {
    if a != [] {
      assert b != [] && c != [];
      if b[0] == c[0] && IsSubsequence(b[1..], c[1..]) {
        if a[0] == b[0] && IsSubsequence(a[1..], b[1..]) {
          SubsequenceTransitive(a[1..], b[1..], c[1..]);
        } else {
          SubsequenceTransitive(a, b[1..], c[1..]);
        }
      } else {
        SubsequenceTransitive(a, b, c[1..]);
      }
    }
  }

  lemma {:induction false} SubsequenceOfSelf<T>(s: seq<T>)
    ensures IsSubsequence(s, s)
  {
    if s != [] {
      SubsequenceOfSelf(s[1..]);
    }
  }

  /** `[x for x in s if p(x)]`: the elements that pass, each as many times as in `s`, in order. */
  function Filter<T(!new)>(s: seq<T>, p: T -> bool): (r: seq<T>)
    ensures IsSubsequence(r, s)
    ensures forall x :: x in r ==> p(x) && x in s
    ensures forall x {:trigger Count(r, x)} :: Count(r, x) == if p(x) then Count(s, x) else 0
  {
    if s == [] then []
    else if p(s[0]) then
      var t := Filter(s[1..], p);
      assert ([s[0]] + t)[1..] == t;
      [s[0]] + t
    else Filter(s[1..], p)
  }

  /** The filter keeps every element that passes. */
  lemma FilterKeepsPassing<T(!new)>(s: seq<T>, p: T -> bool)
    ensures forall x :: x in Filter(s, p) <==> x in s && p(x)
  {
    forall x | x in s && p(x) ensures x in Filter(s, p) {
      assert Count(Filter(s, p), x) == Count(s, x);
    }
  }

  /** Filtering one more element at the end. */
  lemma {:induction false} FilterSnoc<T(!new)>(s: seq<T>, x: T, p: T -> bool)
    ensures Filter(s + [x], p) == Filter(s, p) + (if p(x) then [x] else [])
  {
    if s != [] {
      assert (s + [x])[1..] == s[1..] + [x];
      FilterSnoc(s[1..], x, p);
    } else {
      assert [x][1..] == [];
    }
  }

  /** Filtering a sequence whose elements all pass changes nothing. */
  lemma {:induction false} FilterAllPass<T(!new)>(s: seq<T>, p: T -> bool)
    requires forall x :: x in s ==> p(x)
    ensures Filter(s, p) == s
  {
    if s != [] {
      assert forall x :: x in s[1..] ==> x in s;
      FilterAllPass(s[1..], p);
    }
  }

  /** `len([x for x in s if p(x)])`. */
  lemma {:induction false} FilterLength<T(!new)>(s: seq<T>, p: T -> bool)
    ensures |Filter(s, p)| <= |s|
  {
    SubsequenceLength(Filter(s, p), s);
  }

  /** Pairwise distinct elements. */
  predicate NoDuplicates<T(==)>(s: seq<T>) {
    forall i, j :: 0 <= i < j < |s| ==> s[i] != s[j]
  }

  /** The distinct values of `s`: Python's `set(s)`. */
  function Elements<T>(s: seq<T>): set<T> {
    set x | x in s
  }

  lemma {:induction false} ElementsBound<T>(s: seq<T>)
    ensures |Elements(s)| <= |s|
  {
    if s != [] {
      ElementsBound(s[1..]);
      assert Elements(s) == {s[0]} + Elements(s[1..]);
    }
  }

  /** `len(s) == len(set(s))` holds exactly when no value occurs twice. */
  lemma {:induction false} NoDuplicatesIffSetSize<T>(s: seq<T>)
    ensures |Elements(s)| == |s| <==> NoDuplicates(s)
  {
    if s != [] {
      var t := s[1..];
      NoDuplicatesIffSetSize(t);
      ElementsBound(t);
      assert Elements(s) == {s[0]} + Elements(t);
      if s[0] in t {
        assert Elements(s) == Elements(t);
        var j :| 0 <= j < |t| && t[j] == s[0];
        assert s[0] == s[j + 1];
      } else {
        assert |Elements(s)| == 1 + |Elements(t)|;
        if NoDuplicates(t) {
          forall i, j | 0 <= i < j < |s| ensures s[i] != s[j] {
            if i > 0 {
              assert s[i] == t[i - 1] && s[j] == t[j - 1];
            } else {
              assert s[j] in t;
            }
          }
        } else {
          var i, j :| 0 <= i < j < |t| && t[i] == t[j];
          assert s[i + 1] == s[j + 1];
        }
      }
    }
  }

  /** A part over a whole, as the rates and densities divide: in [0, 1], 1 exactly for the whole, 0 exactly for nothing. */
  lemma FractionBounds(m: real, t: real)
    requires 0.0 <= m <= t && 0.0 < t
    ensures 0.0 <= m / t <= 1.0
    ensures m / t == 1.0 <==> m == t
    ensures m / t == 0.0 <==> m == 0.0
  {
  }

  /** Every element equals `x` exactly when all of `s` counts towards `x`. */
  lemma {:induction false} CountAll<T>(s: seq<T>, x: T)
    ensures Count(s, x) == |s| <==> forall i :: 0 <= i < |s| ==> s[i] == x
  {
    if s != [] {
      CountAll(s[1..], x);
      assert forall i :: 1 <= i < |s| ==> s[i] == s[1..][i - 1];
    }
  }

  function Min(a: int, b: int): (m: int) {
    if a <= b then a else b
  }

  /** Python's `s[:n]`: the first `n` elements, or all but the last `-n` when `n` is negative. */
  function Take<T>(s: seq<T>, n: int): (r: seq<T>)
    ensures r <= s
    ensures n >= 0 ==> |r| == Min(n, |s|)
    ensures n < 0 ==> |r| == if |s| + n >= 0 then |s| + n else 0
  {
    if n >= 0 then (if n <= |s| then s[..n] else s)
    else if |s| + n >= 0 then s[..|s| + n]
    else []
  }
}

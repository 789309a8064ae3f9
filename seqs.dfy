/** Order-preserving filtering of sequences: the model of LINQ `Where`, of a
    `foreach` loop that appends the elements that pass a test, and of the
    `FirstOrDefault` search. */
module Seqs {
  import opened Wrappers

  /** The elements of `s` that satisfy `p`, in their original order. */
  function Filter<T>(p: T -> bool, s: seq<T>): (r: seq<T>)
    ensures |r| <= |s|
    ensures forall i :: 0 <= i < |r| ==> p(r[i])
  {
    if s == [] then []
    else if p(s[0]) then [s[0]] + Filter(p, s[1..])
    else Filter(p, s[1..])
  }

  /** `idx` lists positions of `s` in strictly increasing order. */
  ghost predicate IncreasingPositions(idx: seq<nat>, n: nat) {
    (forall i :: 0 <= i < |idx| ==> idx[i] < n) &&
    (forall i, j :: 0 <= i < j < |idx| ==> idx[i] < idx[j])
  }

  lemma {:induction false} FilterAppend<T>(p: T -> bool, a: seq<T>, b: seq<T>)
    ensures Filter(p, a + b) == Filter(p, a) + Filter(p, b)
  {
    if a == [] {
      assert a + b == b;
    } else {
      assert (a + b)[1..] == a[1..] + b;
      FilterAppend(p, a[1..], b);
    }
  }

  /** Every position in `xs` moved one place to the right. */
  function Shift(xs: seq<nat>): (r: seq<nat>)
    ensures |r| == |xs|
    ensures forall k :: 0 <= k < |xs| ==> r[k] == xs[k] + 1
  {
    seq(|xs|, k requires 0 <= k < |xs| => xs[k] + 1)
  }

  /** The positions of the elements of `s` that `Filter` keeps. */
  function FilterPositions<T>(p: T -> bool, s: seq<T>): seq<nat> {
    if s == [] then []
    else if p(s[0]) then [0] + Shift(FilterPositions(p, s[1..]))
    else Shift(FilterPositions(p, s[1..]))
  }

  lemma {:induction false} FilterPositionsAt<T>(p: T -> bool, s: seq<T>)
    ensures |FilterPositions(p, s)| == |Filter(p, s)|
    ensures forall i :: 0 <= i < |Filter(p, s)| ==>
      FilterPositions(p, s)[i] < |s| && Filter(p, s)[i] == s[FilterPositions(p, s)[i]]
  {
    if s != [] {
      FilterPositionsAt(p, s[1..]);
      var f, fp := Filter(p, s[1..]), FilterPositions(p, s[1..]);
      var d := if p(s[0]) then 1 else 0;
      assert Filter(p, s) == (if p(s[0]) then [s[0]] else []) + f;
      assert FilterPositions(p, s) == (if p(s[0]) then [0] else []) + Shift(fp);
      forall i | d <= i < |Filter(p, s)|
        ensures FilterPositions(p, s)[i] < |s| && Filter(p, s)[i] == s[FilterPositions(p, s)[i]]
      {
        assert FilterPositions(p, s)[i] == fp[i - d] + 1;
        assert Filter(p, s)[i] == f[i - d] == s[1..][fp[i - d]];
      }
    }
  }

  lemma {:induction false} FilterPositionsIncreasing<T>(p: T -> bool, s: seq<T>)
    ensures IncreasingPositions(FilterPositions(p, s), |s|)
  {
    if s != [] {
      FilterPositionsIncreasing(p, s[1..]);
    }
  }

  lemma {:induction false} FilterPositionsComplete<T>(p: T -> bool, s: seq<T>)
    ensures forall j :: 0 <= j < |s| ==> (p(s[j]) <==> j in FilterPositions(p, s))
  {
    if s != [] {
      FilterPositionsComplete(p, s[1..]);
      var fp := FilterPositions(p, s[1..]);
      var sh := Shift(fp);
      assert 0 !in sh;
      forall j | 1 <= j < |s| ensures p(s[j]) <==> j in FilterPositions(p, s) {
        assert s[j] == s[1..][j - 1];
        if j - 1 in fp {
          var k :| 0 <= k < |fp| && fp[k] == j - 1;
          assert sh[k] == j;
        }
        if j in sh {
          var k :| 0 <= k < |sh| && sh[k] == j;
          assert fp[k] == j - 1;
        }
      }
    }
  }

  /** Filtering keeps exactly the elements that pass the test, each at its
      own position and in the original order: the result is the subsequence
      of `s` at the positions `idx`, and `idx` holds every position whose
      element passes. */
  lemma FilterIndices<T>(p: T -> bool, s: seq<T>) returns (idx: seq<nat>)
    ensures |idx| == |Filter(p, s)|
    ensures IncreasingPositions(idx, |s|)
    ensures forall i :: 0 <= i < |idx| ==> Filter(p, s)[i] == s[idx[i]]
    ensures forall j :: 0 <= j < |s| ==> (p(s[j]) <==> j in idx)
  {
    idx := FilterPositions(p, s);
    FilterPositionsAt(p, s);
    FilterPositionsIncreasing(p, s);
    FilterPositionsComplete(p, s);
  }

  /** Filtering with a test that every element passes changes nothing. */
  lemma {:induction false} FilterKeepsAll<T>(p: T -> bool, s: seq<T>)
    requires forall x :: x in s ==> p(x)
    ensures Filter(p, s) == s
  {
    if s != [] {
      FilterKeepsAll(p, s[1..]);
    }
  }

  /** Filtering with a test that no element passes gives the empty sequence. */
  lemma {:induction false} FilterDropsAll<T>(p: T -> bool, s: seq<T>)
    requires forall x :: x in s ==> !p(x)
    ensures Filter(p, s) == []
  {
    if s != [] {
      FilterDropsAll(p, s[1..]);
    }
  }

  /** The position of the first element of `s` that satisfies `p`. */
  function IndexOfFirst<T>(p: T -> bool, s: seq<T>): (r: Option<nat>)
    ensures r.Some? ==> r.value < |s| && p(s[r.value])
    ensures r.Some? ==> forall j :: 0 <= j < r.value ==> !p(s[j])
    ensures r.None? ==> forall j :: 0 <= j < |s| ==> !p(s[j])
  {
    if s == [] then None
    else if p(s[0]) then Some(0)
    else match IndexOfFirst(p, s[1..])
      case None => None
      case Some(i) => Some(i + 1)
  }

  /** `f` applied to each element, in order. */
  function Map<A, B>(f: A -> B, s: seq<A>): (r: seq<B>)
    ensures |r| == |s|
  {
    if s == [] then [] else Map(f, s[..|s| - 1]) + [f(s[|s| - 1])]
  }

  /** The `i`-th element of a mapped sequence is `f` of the `i`-th element. */
  lemma {:induction false} MapAt<A, B>(f: A -> B, s: seq<A>)
    ensures forall i :: 0 <= i < |s| ==> Map(f, s)[i] == f(s[i])
  {
    if s != [] {
      MapAt(f, s[..|s| - 1]);
    }
  }
}

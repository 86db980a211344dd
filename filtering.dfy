/**
 * `iter.filter(keep).collect()` over a sequence, and the two ways of saying
 * what it returns: the elements at exactly the accepted positions, in
 * ascending order; and a subsequence of its input.
 */
module Filtering {

  /** The elements of `xs` that `keep` accepts, in their original order. */
  function Filter<T>(keep: T -> bool, xs: seq<T>): (r: seq<T>)
    ensures |r| <= |xs|
    ensures forall k :: 0 <= k < |r| ==> r[k] in xs && keep(r[k])
  {
    if xs == [] then []
    else (if keep(xs[0]) then [xs[0]] else []) + Filter(keep, xs[1..])
  }

  predicate Ascending(ps: seq<nat>)
  {
    forall j, k :: 0 <= j < k < |ps| ==> ps[j] < ps[k]
  }

  /** Every position moved one place to the right. */
  function Shifted(ps: seq<nat>): (r: seq<nat>)
    ensures |r| == |ps|
    ensures forall k :: 0 <= k < |ps| ==> r[k] == ps[k] + 1
  {
    seq(|ps|, k requires 0 <= k < |ps| => ps[k] + 1)
  }

  /** `i` is a shifted position exactly when `i - 1` is an original one. */
  lemma ShiftedMembers(ps: seq<nat>, i: nat)
    ensures i in Shifted(ps) <==> i >= 1 && i - 1 in ps
  {
    if i >= 1 && i - 1 in ps {
      var k :| 0 <= k < |ps| && ps[k] == i - 1;
      assert Shifted(ps)[k] == i;
    }
  }

  /**
   * The accepted positions of `xs`, given those of its tail: position 0 if
   * the first element is accepted, then the tail's positions moved by one.
   */
  lemma PrependPositions<T>(keep: T -> bool, xs: seq<T>, tail: seq<nat>)
    requires xs != []
    requires Ascending(tail)
    requires forall k :: 0 <= k < |tail| ==> tail[k] < |xs| - 1
    requires forall i :: 0 <= i < |xs| - 1 ==> (i in tail <==> keep(xs[i + 1]))
    ensures var ps := (if keep(xs[0]) then [0] else []) + Shifted(tail);
            && Ascending(ps)
            && (forall k :: 0 <= k < |ps| ==> ps[k] < |xs|)
            && (forall i :: 0 <= i < |xs| ==> (i in ps <==> keep(xs[i])))
  {
    var head: seq<nat> := if keep(xs[0]) then [0] else [];
    var ps := head + Shifted(tail);
    forall i | 0 <= i < |xs| ensures i in ps <==> keep(xs[i]) {
      ShiftedMembers(tail, i);
    }
  }

  /** The positions of `xs` whose element `keep` accepts, ascending. */
  function KeptPositions<T>(keep: T -> bool, xs: seq<T>): (ps: seq<nat>)
    ensures Ascending(ps)
    ensures forall k :: 0 <= k < |ps| ==> ps[k] < |xs|
    ensures forall i :: 0 <= i < |xs| ==> (i in ps <==> keep(xs[i]))
  {
    if xs == [] then
      []
    else
      var tail := KeptPositions(keep, xs[1..]);
      PrependPositions(keep, xs, tail);
      (if keep(xs[0]) then [0] else []) + Shifted(tail)
  }

  /** The elements of `xs` at positions `ps`, in the order of `ps`. */
  function Select<T>(xs: seq<T>, ps: seq<nat>): (r: seq<T>)
    requires forall k :: 0 <= k < |ps| ==> ps[k] < |xs|
    ensures |r| == |ps|
    ensures forall k :: 0 <= k < |ps| ==> r[k] == xs[ps[k]]
  {
    seq(|ps|, k requires 0 <= k < |ps| => xs[ps[k]])
  }

  /**
   * What `filter` then `collect` returns, exactly: the elements at every
   * accepted position and at no other, in ascending position order. So it
   * never reorders, and a line repeated in the input is kept as often as it
   * occurs.
   */
  lemma {:induction false} FilterSelectsKeptPositions<T>(keep: T -> bool, xs: seq<T>)
    ensures Filter(keep, xs) == Select(xs, KeptPositions(keep, xs))
  {
    if xs != [] {
      FilterSelectsKeptPositions(keep, xs[1..]);
      SelectPrepend(keep, xs, Filter(keep, xs[1..]), KeptPositions(keep, xs[1..]));
    }
  }

  /** The inductive step: selecting from `xs` after selecting from its tail. */
  lemma SelectPrepend<T>(keep: T -> bool, xs: seq<T>, rt: seq<T>, pt: seq<nat>)
    requires xs != []
    requires forall k :: 0 <= k < |pt| ==> pt[k] < |xs| - 1
    requires |rt| == |pt| && forall k :: 0 <= k < |pt| ==> rt[k] == xs[pt[k] + 1]
    ensures var ps := (if keep(xs[0]) then [0] else []) + Shifted(pt);
            var r := (if keep(xs[0]) then [xs[0]] else []) + rt;
            r == Select(xs, ps)
  {
    var sp := Shifted(pt);
    if keep(xs[0]) {
      var ps, r := [0] + sp, [xs[0]] + rt;
      forall k | 0 <= k < |ps| ensures r[k] == xs[ps[k]] {
        if k > 0 {
          assert r[k] == rt[k - 1] && ps[k] == pt[k - 1] + 1;
        }
      }
      assert r == Select(xs, ps);
    } else {
      assert rt == Select(xs, sp);
    }
  }

  /**
   * `r` can be obtained from `s` by deleting elements: either `r` is empty,
   * or `s`'s first element is `r`'s first element and the rests match, or
   * `s`'s first element is skipped.
   */
  predicate IsSubsequence<T(==)>(r: seq<T>, s: seq<T>)
    decreases |s|
  {
    r == [] || (s != [] && ((r[0] == s[0] && IsSubsequence(r[1..], s[1..])) || IsSubsequence(r, s[1..])))
  }

  /** Filtering only deletes. */
  lemma {:induction false} FilterIsSubsequence<T>(keep: T -> bool, xs: seq<T>)
    ensures IsSubsequence(Filter(keep, xs), xs)
  {
    if xs != [] {
      FilterIsSubsequence(keep, xs[1..]);
      var r := Filter(keep, xs);
      if keep(xs[0]) {
        assert r[0] == xs[0] && r[1..] == Filter(keep, xs[1..]);
      } else {
        assert r == Filter(keep, xs[1..]);
      }
    }
  }

  /** An element is in the result if and only if it is in the input and accepted. */
  lemma {:induction false} FilterMembership<T>(keep: T -> bool, xs: seq<T>, x: T)
    ensures x in Filter(keep, xs) <==> x in xs && keep(x)
  {
    if xs != [] {
      FilterMembership(keep, xs[1..], x);
      assert xs == [xs[0]] + xs[1..];
    }
  }

  /** A filter that accepts everything returns its input. */
  lemma {:induction false} FilterAll<T>(keep: T -> bool, xs: seq<T>)
    requires forall k :: 0 <= k < |xs| ==> keep(xs[k])
    ensures Filter(keep, xs) == xs
  {
    if xs != [] {
      FilterAll(keep, xs[1..]);
      assert [xs[0]] + xs[1..] == xs;
    }
  }

  /**
   * A more permissive filter returns more: whatever `strict` keeps, `loose`
   * keeps too, in the same order.
   */
  lemma {:induction false} FilterWeaker<T>(strict: T -> bool, loose: T -> bool, xs: seq<T>)
    requires forall k :: 0 <= k < |xs| ==> strict(xs[k]) ==> loose(xs[k])
    ensures IsSubsequence(Filter(strict, xs), Filter(loose, xs))
  {
    if xs != [] {
      var tail := xs[1..];
      FilterWeaker(strict, loose, tail);
      var r1, r2 := Filter(strict, xs), Filter(loose, xs);
      var t1, t2 := Filter(strict, tail), Filter(loose, tail);
      if strict(xs[0]) {
        assert r1[0] == r2[0] && r1[1..] == t1 && r2[1..] == t2;
      } else if loose(xs[0]) {
        assert r1 == t1 && r2[1..] == t2;
      } else {
        assert r1 == t1 && r2 == t2;
      }
    }
  }

  /** A subsequence is never longer than the sequence it was taken from. */
  lemma {:induction false} SubsequenceLength<T>(r: seq<T>, s: seq<T>)
    requires IsSubsequence(r, s)
    ensures |r| <= |s|
    decreases |s|
  {
    if r != [] {
      if r[0] == s[0] && IsSubsequence(r[1..], s[1..]) {
        SubsequenceLength(r[1..], s[1..]);
      } else {
        SubsequenceLength(r, s[1..]);
      }
    }
  }

  /** Two filters that agree on every element of `xs` return the same. */
  lemma {:induction false} FilterCongruent<T>(keep1: T -> bool, keep2: T -> bool, xs: seq<T>)
    requires forall k :: 0 <= k < |xs| ==> keep1(xs[k]) == keep2(xs[k])
    ensures Filter(keep1, xs) == Filter(keep2, xs)
  {
    if xs != [] {
      FilterCongruent(keep1, keep2, xs[1..]);
    }
  }
}

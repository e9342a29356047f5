/**
 * Sequence helpers shared by the comprehensions of the model.
 * `Filter` is Python's `[x for x in s if p(x)]`; `SelectedIndices` names the
 * positions it keeps, so that order preservation can be stated exactly.
 */
module Seqs {

  /** `[x for x in s if p(x)]`: the elements of `s` satisfying `p`, front to back. */
  function Filter<T>(s: seq<T>, p: T -> bool): (r: seq<T>)
    ensures |r| <= |s|
    ensures forall x :: x in r ==> x in s && p(x)
    decreases |s|
  {
    if s == [] then [] else (if p(s[0]) then [s[0]] else []) + Filter(s[1..], p)
  }

  /** Every index of `idx`, moved up by `k`. */
  function Shift(idx: seq<int>, k: int): (r: seq<int>)
  {
    seq(|idx|, i requires 0 <= i < |idx| => idx[i] + k)
  }

  /** The positions of `s` whose element satisfies `p`, in increasing order. */
  function SelectedIndices<T>(s: seq<T>, p: T -> bool): seq<int>
    decreases |s|
  {
    if s == [] then [] else (if p(s[0]) then [0] else []) + Shift(SelectedIndices(s[1..], p), 1)
  }

  /** Position `k` of `idx` points into `s` at the element `r[k]`. */
  ghost predicate PicksFrom<T>(idx: seq<int>, r: seq<T>, s: seq<T>)
  {
    |idx| == |r| && forall k :: 0 <= k < |idx| ==> 0 <= idx[k] < |s| && s[idx[k]] == r[k]
  }

  ghost predicate StrictlyIncreasing(idx: seq<int>)
  {
    forall k, l :: 0 <= k < l < |idx| ==> idx[k] < idx[l]
  }

  /** The positions in `idx` are exactly those whose element satisfies `p`. */
  ghost predicate ExactlyWhere<T>(idx: seq<int>, s: seq<T>, p: T -> bool)
  {
    forall i :: 0 <= i < |s| ==> (p(s[i]) <==> i in idx)
  }

  /**
   * `r` is the subsequence of `s` picked at the strictly increasing positions
   * `idx`, and those positions are exactly the ones whose element satisfies `p`.
   */
  ghost predicate IsOrderedSelection<T>(idx: seq<int>, r: seq<T>, s: seq<T>, p: T -> bool)
  {
    PicksFrom(idx, r, s) && StrictlyIncreasing(idx) && ExactlyWhere(idx, s, p)
  }

  lemma ShiftMember(idx: seq<int>, i: int)
    ensures i in Shift(idx, 1) <==> i - 1 in idx
  {
    var sh := Shift(idx, 1);
    if i in sh {
      var k :| 0 <= k < |sh| && sh[k] == i;
      assert idx[k] == i - 1;
    }
    if i - 1 in idx {
      var k :| 0 <= k < |idx| && idx[k] == i - 1;
      assert sh[k] == i;
    }
  }

  lemma {:induction false} SelectedIndicesPick<T>(s: seq<T>, p: T -> bool)
    ensures PicksFrom(SelectedIndices(s, p), Filter(s, p), s)
    decreases |s|
  {
    if s != [] {
      var tail := s[1..];
      SelectedIndicesPick(tail, p);
      var ti, tr := SelectedIndices(tail, p), Filter(tail, p);
      var n := if p(s[0]) then 1 else 0;
      var idx, r := SelectedIndices(s, p), Filter(s, p);
      assert idx == (if p(s[0]) then [0] else []) + Shift(ti, 1);
      assert r == (if p(s[0]) then [s[0]] else []) + tr;
      forall k | n <= k < |idx|
        ensures 0 <= idx[k] < |s| && s[idx[k]] == r[k]
      {
        assert idx[k] == ti[k - n] + 1 && r[k] == tr[k - n];
      }
    }
  }

  lemma {:induction false} SelectedIndicesIncreasing<T>(s: seq<T>, p: T -> bool)
    ensures StrictlyIncreasing(SelectedIndices(s, p))
    ensures forall x :: x in SelectedIndices(s, p) ==> 0 <= x < |s|
    decreases |s|
  {
    if s != [] {
      var tail := s[1..];
      SelectedIndicesIncreasing(tail, p);
      var ti := SelectedIndices(tail, p);
      var n := if p(s[0]) then 1 else 0;
      var idx := SelectedIndices(s, p);
      assert idx == (if p(s[0]) then [0] else []) + Shift(ti, 1);
      forall k, l | 0 <= k < l < |idx|
        ensures idx[k] < idx[l]
      {
        assert idx[l] == ti[l - n] + 1 && ti[l - n] in ti;
        if k >= n {
          assert idx[k] == ti[k - n] + 1;
        }
      }
      forall x | x in idx
        ensures 0 <= x < |s|
      {
        if x != 0 || n == 0 {
          ShiftMember(ti, x);
        }
      }
    }
  }

  lemma {:induction false} SelectedIndicesExact<T>(s: seq<T>, p: T -> bool)
    ensures ExactlyWhere(SelectedIndices(s, p), s, p)
    decreases |s|
  {
    if s != [] {
      var tail := s[1..];
      SelectedIndicesExact(tail, p);
      SelectedIndicesIncreasing(tail, p);
      var ti := SelectedIndices(tail, p);
      var idx := SelectedIndices(s, p);
      assert idx == (if p(s[0]) then [0] else []) + Shift(ti, 1);
      forall i | 0 <= i < |s|
        ensures p(s[i]) <==> i in idx
      {
        ShiftMember(ti, i);
        if i > 0 {
          assert s[i] == tail[i - 1];
        }
      }
    }
  }

  /** `Filter` keeps exactly the satisfying elements, in their original order. */
  lemma FilterIsOrderedSelection<T>(s: seq<T>, p: T -> bool)
    ensures IsOrderedSelection(SelectedIndices(s, p), Filter(s, p), s, p)
  {
    SelectedIndicesPick(s, p);
    SelectedIndicesIncreasing(s, p);
    SelectedIndicesExact(s, p);
  }

  /** Concatenation regroups freely. */
  lemma AppendAssociative<T>(a: seq<T>, b: seq<T>, c: seq<T>)
    ensures a + b + c == a + (b + c)
  {
  }

  /** Taking one more element appends it. */
  lemma TakeOneMore<T>(s: seq<T>, n: nat)
    requires n < |s|
    ensures s[..n + 1] == s[..n] + [s[n]]
  {
  }

  /** Splitting at any point and rejoining gives the sequence back. */
  lemma TakeDropJoin<T>(s: seq<T>, n: nat)
    requires n <= |s|
    ensures s[..n] + s[n..] == s
  {
  }

  /** The head and tail of a concatenation whose front is not empty. */
  lemma AppendHeadTail<T>(a: seq<T>, b: seq<T>)
    requires a != []
    ensures (a + b)[0] == a[0] && (a + b)[1..] == a[1..] + b
  {
  }

  /** The empty sequence is a unit of concatenation. */
  lemma AppendEmpty<T>(a: seq<T>)
    ensures a + [] == a && [] + a == a
  {
  }

  /** A concatenation starts with its front and ends with the last element of a non-empty back. */
  lemma AppendEnds<T>(a: seq<T>, b: seq<T>)
    ensures (a + b)[..|a|] == a
    ensures b != [] ==> (a + b)[|a + b| - 1] == b[|b| - 1]
  {
  }
}

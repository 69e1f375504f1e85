/** Order-preserving filtering of sequences, the shape shared by a Python list
    comprehension with an `if` and a boolean-mask selection of data-frame rows. */
module Seqs {

  /** The elements of `s` that satisfy `p`, in their original order. */
  function Filter<T(!new)>(p: T -> bool, s: seq<T>): (r: seq<T>)
    ensures |r| <= |s|
    ensures forall x :: x in r <==> x in s && p(x)
  {
    if s == [] then []
    else (if p(s[0]) then [s[0]] else []) + Filter(p, s[1..])
  }

  /** The positions in `s` of the elements that `Filter(p, s)` keeps. */
  function KeptIndices<T(!new)>(p: T -> bool, s: seq<T>): (ix: seq<nat>)
    ensures |ix| == |Filter(p, s)|
    ensures forall k :: 0 <= k < |ix| ==> ix[k] < |s|
  {
    if s == [] then []
    else (if p(s[0]) then [0] else []) + Shift(KeptIndices(p, s[1..]))
  }

  function Shift(ix: seq<nat>): (r: seq<nat>)
    ensures |r| == |ix|
  {
    seq(|ix|, k requires 0 <= k < |ix| => ix[k] + 1)
  }

  predicate StrictlyIncreasing(ix: seq<nat>)
  {
    forall i, j :: 0 <= i < j < |ix| ==> ix[i] < ix[j]
  }

  /** `Filter(p, s)` is the subsequence of `s` at strictly increasing positions,
      and a position is kept exactly when its element satisfies `p`. */
  lemma FilterIsSubsequence<T(!new)>(p: T -> bool, s: seq<T>)
    ensures var r, ix := Filter(p, s), KeptIndices(p, s);
      |ix| == |r| && StrictlyIncreasing(ix) &&
      (forall k :: 0 <= k < |ix| ==> ix[k] < |s| && r[k] == s[ix[k]]) &&
      (forall i :: 0 <= i < |s| ==> (p(s[i]) <==> i in ix))
  {
    KeptIndicesIncreasing(p, s);
    KeptIndicesSelect(p, s);
    KeptIndicesMembership(p, s);
  }

  lemma {:induction false} KeptIndicesIncreasing<T(!new)>(p: T -> bool, s: seq<T>)
    ensures StrictlyIncreasing(KeptIndices(p, s))
  {
    if s != [] {
      KeptIndicesIncreasing(p, s[1..]);
      var rest := KeptIndices(p, s[1..]);
      assert StrictlyIncreasing(Shift(rest));
      assert forall k :: 0 <= k < |rest| ==> Shift(rest)[k] > 0;
    }
  }

  lemma {:induction false} KeptIndicesSelect<T(!new)>(p: T -> bool, s: seq<T>)
    ensures forall k :: 0 <= k < |KeptIndices(p, s)| ==> Filter(p, s)[k] == s[KeptIndices(p, s)[k]]
  {
    if s != [] {
      KeptIndicesSelect(p, s[1..]);
      var rest, tail := KeptIndices(p, s[1..]), Filter(p, s[1..]);
      var ix, r := KeptIndices(p, s), Filter(p, s);
      var d := if p(s[0]) then 1 else 0;
      assert ix == (if p(s[0]) then [0] else []) + Shift(rest);
      assert r == (if p(s[0]) then [s[0]] else []) + tail;
      forall k | d <= k < |ix|
        ensures r[k] == s[ix[k]]
      {
        assert ix[k] == rest[k - d] + 1;
        assert r[k] == tail[k - d];
        assert s[ix[k]] == s[1..][rest[k - d]];
      }
    }
  }

  lemma {:induction false} KeptIndicesMembership<T(!new)>(p: T -> bool, s: seq<T>)
    ensures forall i :: 0 <= i < |s| ==> (p(s[i]) <==> i in KeptIndices(p, s))
  {
    if s != [] {
      KeptIndicesMembership(p, s[1..]);
      var rest := KeptIndices(p, s[1..]);
      var ix := KeptIndices(p, s);
      assert ix == (if p(s[0]) then [0] else []) + Shift(rest);
      ShiftMembers(rest);
      forall i | 1 <= i < |s|
        ensures p(s[i]) <==> i in ix
      {
        assert s[i] == s[1..][i - 1];
      }
    }
  }

  /** Shifting adds one to every position: 0 is never among the shifted
      positions, and `v` is one exactly when `v - 1` was. */
  lemma ShiftMembers(ix: seq<nat>)
    ensures 0 !in Shift(ix)
    ensures forall v: nat :: v in ix <==> v + 1 in Shift(ix)
  {
    forall v: nat
      ensures v in ix <==> v + 1 in Shift(ix)
    {
      if v in ix {
        var k :| 0 <= k < |ix| && ix[k] == v;
        assert Shift(ix)[k] == v + 1;
      }
      if v + 1 in Shift(ix) {
        var k :| 0 <= k < |ix| && Shift(ix)[k] == v + 1;
      }
    }
  }

  /** Filtering keeps every element when every element qualifies. */
  lemma {:induction false} FilterAll<T(!new)>(p: T -> bool, s: seq<T>)
    requires forall x :: x in s ==> p(x)
    ensures Filter(p, s) == s
  {
    if s != [] {
      FilterAll(p, s[1..]);
    }
  }

  /** Filtering by `q` and then by `p` is filtering once by their conjunction. */
  lemma {:induction false} FilterCompose<T(!new)>(p: T -> bool, q: T -> bool, pq: T -> bool, s: seq<T>)
    requires forall x :: x in s ==> pq(x) == (q(x) && p(x))
    ensures Filter(p, Filter(q, s)) == Filter(pq, s)
  {
    if s != [] {
      FilterCompose(p, q, pq, s[1..]);
      var head := if q(s[0]) then [s[0]] else [];
      assert Filter(q, s) == head + Filter(q, s[1..]);
      FilterAppend(p, head, Filter(q, s[1..]));
      if q(s[0]) {
        assert Filter(p, head) == Filter(p, [s[0]]);
        assert [s[0]][1..] == [];
      }
    }
  }

  /** Filtering distributes over concatenation. */
  lemma {:induction false} FilterAppend<T(!new)>(p: T -> bool, a: seq<T>, b: seq<T>)
    ensures Filter(p, a + b) == Filter(p, a) + Filter(p, b)
  {
    if a == [] {
      assert a + b == b;
    } else {
      FilterAppend(p, a[1..], b);
      var head := if p(a[0]) then [a[0]] else [];
      assert (a + b)[0] == a[0] && (a + b)[1..] == a[1..] + b;
      calc {
        Filter(p, a + b);
        head + Filter(p, a[1..] + b);
        head + (Filter(p, a[1..]) + Filter(p, b));
        (head + Filter(p, a[1..])) + Filter(p, b);
        Filter(p, a) + Filter(p, b);
      }
    }
  }
}

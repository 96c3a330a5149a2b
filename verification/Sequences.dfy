/** Concatenations and subsequences. */
module Sequences {

  function Concat<T>(parts: seq<seq<T>>): seq<T> {
    if parts == [] then [] else Concat(parts[..|parts| - 1]) + parts[|parts| - 1]
  }

  lemma ConcatSnoc<T>(parts: seq<seq<T>>, last: seq<T>)
    ensures Concat(parts + [last]) == Concat(parts) + last
  {
    var all := parts + [last];
    assert all[..|all| - 1] == parts;
  }

  lemma {:induction false} ConcatSplit<T>(parts: seq<seq<T>>, n: nat)
    requires n <= |parts|
    ensures Concat(parts) == Concat(parts[..n]) + Concat(parts[n..])
  {
    if n == |parts| {
      assert parts[..n] == parts;
    } else {
      var init := parts[..|parts| - 1];
      ConcatSplit(init, n);
      assert init[..n] == parts[..n];
      assert parts[n..][..|parts| - n - 1] == init[n..];
    }
  }

  lemma {:induction false} ConcatHolds<T>(parts: seq<seq<T>>, part: seq<T>, x: T)
    requires part in parts && x in part
    ensures x in Concat(parts)
  {
    var init, last := parts[..|parts| - 1], parts[|parts| - 1];
    assert parts == init + [last];
    if part in init {
      ConcatHolds(init, part, x);
    }
  }

  /** `ix` picks the elements of `a` out of `b`, in order. */
  ghost predicate Picks<T>(ix: seq<nat>, a: seq<T>, b: seq<T>) {
    && |ix| == |a|
    && (forall i, j :: 0 <= i < j < |ix| ==> ix[i] < ix[j])
    && forall i :: 0 <= i < |ix| ==> ix[i] < |b| && a[i] == b[ix[i]]
  }

  /** `a` is `b` with some elements left out. */
  ghost predicate IsSubsequence<T>(a: seq<T>, b: seq<T>) {
    exists ix: seq<nat> :: Picks(ix, a, b)
  }

  lemma SubsequenceOfNone<T>()
    ensures IsSubsequence<T>([], [])
  {
    assert Picks<T>([], [], []);
  }

  lemma SubsequenceGrows<T>(a: seq<T>, b: seq<T>, x: T)
    requires IsSubsequence(a, b)
    ensures IsSubsequence(a, b + [x]) && IsSubsequence(a + [x], b + [x])
  {
    var ix: seq<nat> :| Picks(ix, a, b);
    assert Picks(ix, a, b + [x]);
    assert Picks(ix + [|b|], a + [x], b + [x]);
  }

  lemma SubsequenceDrop<T>(a: seq<T>, b: seq<T>, i: nat)
    requires IsSubsequence(a, b) && i < |a|
    ensures IsSubsequence(a[..i] + a[i + 1..], b)
  {
    var ix: seq<nat> :| Picks(ix, a, b);
    assert Picks(ix[..i] + ix[i + 1..], a[..i] + a[i + 1..], b);
  }

  lemma SubsequenceElements<T>(a: seq<T>, b: seq<T>, x: T)
    requires IsSubsequence(a, b) && x in a
    ensures x in b
  {
    var ix: seq<nat> :| Picks(ix, a, b);
    var i :| 0 <= i < |a| && a[i] == x;
    assert b[ix[i]] == x;
  }

  lemma {:induction false} PicksGrows<T>(ix: seq<nat>, a: seq<T>, b: seq<T>, i: nat)
    requires Picks(ix, a, b) && i < |ix|
    ensures ix[i] >= i
  {
    if i == 0 {
    } else {
      PicksGrows(ix, a, b, i - 1);
    }
  }

  lemma {:induction false} PicksBound<T>(ix: seq<nat>, a: seq<T>, b: seq<T>, i: nat)
    requires Picks(ix, a, b) && i < |ix|
    ensures ix[i] + (|ix| - i) <= |b|
    decreases |ix| - i
  {
    if i + 1 == |ix| {
    } else {
      PicksBound(ix, a, b, i + 1);
    }
  }

  /** A subsequence of full length is the whole sequence. */
  lemma SubsequenceWhole<T>(a: seq<T>, b: seq<T>)
    requires IsSubsequence(a, b) && |a| == |b|
    ensures a == b
  {
    var ix: seq<nat> :| Picks(ix, a, b);
    forall i | 0 <= i < |a|
      ensures a[i] == b[i]
    {
      PicksBound(ix, a, b, i);
      PicksGrows(ix, a, b, i);
    }
  }
}

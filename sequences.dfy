/**
 * Two list operations the game performs on Python lists: keeping the
 * elements a comprehension's condition accepts, and `list.remove`.
 */
module Sequences {

  /**
   * The elements s[i] with keep[i], in their original order (the model of
   * `[e for e in s if cond(e)]`, with keep[i] the condition's value on s[i]).
   */
  function Select<T>(s: seq<T>, keep: seq<bool>): (r: seq<T>)
    requires |keep| == |s|
    ensures |r| <= |s|
    decreases |s|
  {
    if |s| == 0 then []
    else Select(s[..|s| - 1], keep[..|s| - 1]) + (if keep[|s| - 1] then [s[|s| - 1]] else [])
  }

  /** The indices i with keep[i], in ascending order. */
  function Kept(keep: seq<bool>): (idx: seq<nat>)
    ensures forall k :: 0 <= k < |idx| ==> idx[k] < |keep|
    decreases |keep|
  {
    if |keep| == 0 then []
    else Kept(keep[..|keep| - 1]) + (if keep[|keep| - 1] then [|keep| - 1] else [])
  }

  /** Select keeps one element per accepted index. */
  lemma {:induction false} SelectLength<T>(s: seq<T>, keep: seq<bool>)
    requires |keep| == |s|
    ensures |Kept(keep)| == |Select(s, keep)|
    decreases |s|
  {
    if |s| > 0 {
      SelectLength(s[..|s| - 1], keep[..|s| - 1]);
    }
  }

  /** The k-th element Select keeps is s at the k-th accepted index. */
  lemma {:induction false} SelectAt<T>(s: seq<T>, keep: seq<bool>)
    requires |keep| == |s|
    ensures |Kept(keep)| == |Select(s, keep)|
    ensures forall k :: 0 <= k < |Kept(keep)| ==> Select(s, keep)[k] == s[Kept(keep)[k]]
    decreases |s|
  {
    SelectLength(s, keep);
    if |s| > 0 {
      var n := |s| - 1;
      var front, idx := Select(s[..n], keep[..n]), Kept(keep[..n]);
      SelectAt(s[..n], keep[..n]);
      forall k | 0 <= k < |Kept(keep)|
        ensures Select(s, keep)[k] == s[Kept(keep)[k]]
      {
        if k < |idx| {
          assert Select(s, keep)[k] == front[k] == s[..n][idx[k]];
          assert Kept(keep)[k] == idx[k];
        }
      }
    }
  }

  /** The accepted indices ascend strictly. */
  lemma {:induction false} KeptAscending(keep: seq<bool>)
    ensures forall k, m :: 0 <= k < m < |Kept(keep)| ==> Kept(keep)[k] < Kept(keep)[m]
    decreases |keep|
  {
    if |keep| > 0 {
      var n := |keep| - 1;
      var idx := Kept(keep[..n]);
      KeptAscending(keep[..n]);
      forall k, m | 0 <= k < m < |Kept(keep)|
        ensures Kept(keep)[k] < Kept(keep)[m]
      {
        assert Kept(keep)[k] == idx[k];
        if m < |idx| {
          assert Kept(keep)[m] == idx[m];
        }
      }
    }
  }

  /** An index is accepted exactly when keep holds there. */
  lemma {:induction false} KeptMembers(keep: seq<bool>)
    ensures forall i :: 0 <= i < |keep| ==> (keep[i] <==> i in Kept(keep))
    decreases |keep|
  {
    if |keep| > 0 {
      var n := |keep| - 1;
      var idx := Kept(keep[..n]);
      KeptMembers(keep[..n]);
      forall i | 0 <= i < |keep|
        ensures keep[i] <==> i in Kept(keep)
      {
        assert i in Kept(keep) <==> i in idx || (keep[n] && i == n);
        if i < n {
          assert keep[..n][i] == keep[i];
        } else {
          assert n !in idx;
        }
      }
    }
  }

  /**
   * Select is an order-preserving filter: its k-th element is s at the k-th
   * accepted index, the accepted indices ascend strictly, and an index is
   * accepted exactly when keep holds there.
   */
  lemma SelectIsOrderedFilter<T>(s: seq<T>, keep: seq<bool>)
    requires |keep| == |s|
    ensures |Kept(keep)| == |Select(s, keep)|
    ensures forall k :: 0 <= k < |Kept(keep)| ==> Select(s, keep)[k] == s[Kept(keep)[k]]
    ensures forall k, m :: 0 <= k < m < |Kept(keep)| ==> Kept(keep)[k] < Kept(keep)[m]
    ensures forall i :: 0 <= i < |s| ==> (keep[i] <==> i in Kept(keep))
  {
    SelectAt(s, keep);
    KeptAscending(keep);
    KeptMembers(keep);
  }

  /** Membership in Select: an element is kept exactly when it sits at some accepted index. */
  lemma SelectMembers<T>(s: seq<T>, keep: seq<bool>)
    requires |keep| == |s|
    ensures forall i :: 0 <= i < |s| && keep[i] ==> s[i] in Select(s, keep)
    ensures forall x :: x in Select(s, keep) ==> exists i :: 0 <= i < |s| && keep[i] && s[i] == x
  {
    SelectAt(s, keep);
    KeptMembers(keep);
    forall i | 0 <= i < |s| && keep[i]
      ensures s[i] in Select(s, keep)
    {
      var k :| 0 <= k < |Kept(keep)| && Kept(keep)[k] == i;
      assert Select(s, keep)[k] == s[i];
    }
    forall x | x in Select(s, keep)
      ensures exists i :: 0 <= i < |s| && keep[i] && s[i] == x
    {
      var k :| 0 <= k < |Select(s, keep)| && Select(s, keep)[k] == x;
      var i := Kept(keep)[k];
      assert i in Kept(keep);
      assert keep[i] && s[i] == x;
    }
  }

  /** s with the element at index k deleted. */
  function Without<T>(s: seq<T>, k: nat): (r: seq<T>)
    requires k < |s|
    ensures |r| == |s| - 1
  {
    if k == 0 then s[1..] else [s[0]] + Without(s[1..], k - 1)
  }

  /** Deleting index k keeps the elements before k and shifts those after it down by one. */
  lemma {:induction false} WithoutAt<T>(s: seq<T>, k: nat)
    requires k < |s|
    ensures forall t :: 0 <= t < k ==> Without(s, k)[t] == s[t]
    ensures forall t :: k <= t < |s| - 1 ==> Without(s, k)[t] == s[t + 1]
  {
    if k > 0 {
      WithoutAt(s[1..], k - 1);
      forall t | 0 < t < |s| - 1
        ensures Without(s, k)[t] == Without(s[1..], k - 1)[t - 1]
      {
      }
    }
  }

  /** Deleting index k removes exactly one copy of s[k]. */
  lemma {:induction false} MultisetWithout<T>(s: seq<T>, k: nat)
    requires k < |s|
    ensures multiset(Without(s, k)) + multiset{s[k]} == multiset(s)
  {
    assert s == [s[0]] + s[1..];
    if k > 0 {
      MultisetWithout(s[1..], k - 1);
      assert s[1..][k - 1] == s[k];
    }
  }

  /** The indices ascend strictly. */
  predicate Ascending(idx: seq<nat>) {
    forall t, u :: 0 <= t < u < |idx| ==> idx[t] < idx[u]
  }

  /** xs is the sequence of elements of `all` at the indices idx. */
  predicate IndexedBy<T(==)>(xs: seq<T>, idx: seq<nat>, all: seq<T>) {
    |idx| == |xs| && forall t :: 0 <= t < |idx| ==> idx[t] < |all| && xs[t] == all[idx[t]]
  }

  /** Deleting position k from both the elements and their indices keeps them matched and ascending. */
  lemma DeleteIndexed<T>(xs: seq<T>, idx: seq<nat>, all: seq<T>, k: nat)
    requires IndexedBy(xs, idx, all) && Ascending(idx) && k < |xs|
    ensures IndexedBy(Without(xs, k), Without(idx, k), all)
    ensures Ascending(Without(idx, k))
  {
    WithoutAt(xs, k);
    WithoutAt(idx, k);
    var idx' := Without(idx, k);
    forall t, u | 0 <= t < u < |idx'|
      ensures idx'[t] < idx'[u]
    {
      var t', u' := if t < k then t else t + 1, if u < k then u else u + 1;
      assert idx'[t] == idx[t'] && idx'[u] == idx[u'];
    }
  }

  /** No element occurs twice (a list of distinct objects). */
  predicate Distinct<T(==)>(s: seq<T>) {
    forall i, j :: 0 <= i < j < |s| ==> s[i] != s[j]
  }

  /** Filtering a list without repeats gives a list without repeats. */
  lemma SelectDistinct<T>(s: seq<T>, keep: seq<bool>)
    requires |keep| == |s| && Distinct(s)
    ensures Distinct(Select(s, keep))
  {
    SelectIsOrderedFilter(s, keep);
  }

  /**
   * Python's `list.remove(v)`: drops the first element equal to v (the
   * library raises an error when v is absent, which callers here exclude).
   */
  function RemoveFirst<T(==)>(s: seq<T>, v: T): (r: seq<T>)
    requires v in s
    ensures |r| == |s| - 1
    ensures multiset(r) + multiset{v} == multiset(s)
  {
    assert s == [s[0]] + s[1..];
    if s[0] == v then s[1..] else [s[0]] + RemoveFirst(s[1..], v)
  }

  /** When s[k] is the first occurrence of v, removing v deletes exactly index k. */
  lemma {:induction false} RemoveFirstAt<T>(s: seq<T>, v: T, k: nat)
    requires k < |s| && s[k] == v
    requires forall j :: 0 <= j < k ==> s[j] != v
    ensures RemoveFirst(s, v) == Without(s, k)
  {
    if k > 0 {
      RemoveFirstAt(s[1..], v, k - 1);
    }
  }
}

/**
 * GLib lists built with g_list_prepend. Every analyzer prepends each
 * finding as it discovers it, so the list it returns is its discovery
 * sequence reversed.
 */
module Lists {

  /** The list that prepending the elements of s, first to last, builds. */
  function Reversed<T>(s: seq<T>): (r: seq<T>)
    ensures |r| == |s|
  {
    if s == [] then [] else Reversed(s[1..]) + [s[0]]
  }

  /** Position k of the reversed sequence holds the element |s| - 1 - k. */
  lemma {:induction false} ReversedAt<T>(s: seq<T>, k: nat)
    requires k < |s|
    ensures Reversed(s)[k] == s[|s| - 1 - k]
  {
    if k < |s| - 1 {
      ReversedAt(s[1..], k);
    }
  }

  /** Prepending a then b builds b reversed in front of a reversed. */
  lemma {:induction false} ReversedAppend<T>(a: seq<T>, b: seq<T>)
    ensures Reversed(a + b) == Reversed(b) + Reversed(a)
  {
    if a == [] {
      assert a + b == b;
    } else {
      assert (a + b)[1..] == a[1..] + b;
      ReversedAppend(a[1..], b);
    }
  }

  /** The reversed sequence holds the same elements. */
  lemma {:induction false} ReversedMembers<T>(s: seq<T>, x: T)
    ensures x in Reversed(s) <==> x in s
  {
    if s != [] {
      ReversedMembers(s[1..], x);
      assert s == [s[0]] + s[1..];
    }
  }

  /** More elements than a set can hold distinct: some value repeats. */
  lemma {:induction false} Pigeonhole<T>(s: seq<T>, S: set<T>)
    requires forall i :: 0 <= i < |s| ==> s[i] in S
    requires |s| > |S|
    ensures exists i, j :: 0 <= i < j < |s| && s[i] == s[j]
    decreases |s|
  {
    if s[0] in s[1..] {
      var j :| 0 <= j < |s[1..]| && s[1..][j] == s[0];
      assert s[0] == s[j + 1];
    } else {
      var rest := S - {s[0]};
      assert forall i :: 0 <= i < |s[1..]| ==> s[1..][i] in rest;
      Pigeonhole(s[1..], rest);
      var i, j :| 0 <= i < j < |s[1..]| && s[1..][i] == s[1..][j];
      assert s[i + 1] == s[j + 1];
    }
  }

  /**
   * Prepending the elements of a, then those of b, one at a time onto res
   * gives the reverse of a + b in front of res.
   */
  lemma PrependStep<T>(a: seq<T>, b: seq<T>, res: seq<T>)
    ensures Reversed(a + b) + res == Reversed(b) + (Reversed(a) + res)
  {
    ReversedAppend(a, b);
  }

  /**
   * f(i) + f(i + 1) + ... + f(n - 1): what a loop over the indices i to
   * n - 1 produces when index k contributes f(k).
   */
  function ConcatRange<T>(f: nat -> seq<T>, i: nat, n: nat): seq<T>
    decreases n - i
  {
    if i >= n then [] else f(i) + ConcatRange(f, i + 1, n)
  }

  /** x is produced exactly when some index in range contributes it. */
  lemma {:induction false} ConcatRangeMembers<T>(f: nat -> seq<T>, i: nat, n: nat, x: T)
    ensures x in ConcatRange(f, i, n) <==> exists k :: i <= k < n && x in f(k)
    decreases n - i
  {
    if i < n {
      ConcatRangeMembers(f, i + 1, n, x);
    }
  }

  /**
   * One turn of a loop that prepends index i's contribution: what is
   * still to come from i shrinks to what is still to come from i + 1.
   */
  lemma ConcatRangeStep<T>(f: nat -> seq<T>, i: nat, n: nat, res: seq<T>)
    requires i < n
    ensures Reversed(ConcatRange(f, i, n)) + res == Reversed(ConcatRange(f, i + 1, n)) + (Reversed(f(i)) + res)
  {
    PrependStep(f(i), ConcatRange(f, i + 1, n), res);
  }

  /** The indices from i to n - 1 whose contribution is not empty. */
  function Contributing<T>(f: nat -> seq<T>, i: nat, n: nat): set<nat>
  {
    set k: nat | i <= k < n && f(k) != []
  }

  /** When each index contributes at most one element, there is one element per contributing index. */
  lemma {:induction false} ConcatRangeCount<T>(f: nat -> seq<T>, i: nat, n: nat)
    requires forall k :: i <= k < n ==> |f(k)| <= 1
    ensures |ConcatRange(f, i, n)| == |Contributing(f, i, n)|
    decreases n - i
  {
    if i < n {
      ConcatRangeCount(f, i + 1, n);
      ContributingStep(f, i, n);
    } else {
      assert Contributing(f, i, n) == {};
    }
  }

  /** Index i joins the contributing indices above it exactly when it contributes. */
  lemma ContributingStep<T>(f: nat -> seq<T>, i: nat, n: nat)
    requires i < n
    ensures f(i) != [] ==> Contributing(f, i, n) == Contributing(f, i + 1, n) + {i}
    ensures f(i) == [] ==> Contributing(f, i, n) == Contributing(f, i + 1, n)
    ensures i !in Contributing(f, i + 1, n)
  {
  }
}

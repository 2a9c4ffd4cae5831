/**
 * The median of a finite sequence of reals, as numpy's `median` computes it:
 * the values are sorted, and the result is the middle value when their number
 * is odd and the mean of the two middle values when it is even.
 */
module Statistics {

  predicate IsSorted(s: seq<real>) {
    forall i, j :: 0 <= i < j < |s| ==> s[i] <= s[j]
  }

  /** Inserts `x` into the sorted sequence `s` at its place. */
  function Insert(x: real, s: seq<real>): (r: seq<real>)
    requires IsSorted(s)
    ensures |r| == |s| + 1
    ensures IsSorted(r)
    ensures multiset(r) == multiset(s) + multiset{x}
    ensures r[0] == x || (|s| > 0 && r[0] == s[0])
  {
    if |s| == 0 then [x]
    else if x <= s[0] then [x] + s
    else
      assert s == [s[0]] + s[1..];
      [s[0]] + Insert(x, s[1..])
  }

  /** Sorts `s` in ascending order (insertion sort). */
  function Sort(s: seq<real>): (r: seq<real>)
    ensures |r| == |s|
    ensures IsSorted(r)
    ensures multiset(r) == multiset(s)
  {
    if |s| == 0 then []
    else
      assert s == [s[0]] + s[1..];
      Insert(s[0], Sort(s[1..]))
  }

  /** Two sorted sequences holding the same values are the same sequence. */
  lemma {:induction false} SortedUnique(a: seq<real>, b: seq<real>)
    requires IsSorted(a) && IsSorted(b)
    requires multiset(a) == multiset(b)
    ensures a == b
  {
    assert |a| == |multiset(a)| == |multiset(b)| == |b|;
    if |a| > 0 {
      FirstIsLeast(a, b[0]);
      FirstIsLeast(b, a[0]);
      var x := a[0];
      assert a == [x] + a[1..] && b == [x] + b[1..];
      assert multiset(a[1..]) == multiset(a) - multiset{x};
      assert multiset(b[1..]) == multiset(b) - multiset{x};
      SortedTail(a);
      SortedTail(b);
      SortedUnique(a[1..], b[1..]);
    }
  }

  lemma SortedTail(t: seq<real>)
    requires IsSorted(t) && |t| > 0
    ensures IsSorted(t[1..])
  {
  }

  /** The first value of a sorted sequence is at most any value it holds. */
  lemma FirstIsLeast(t: seq<real>, x: real)
    requires IsSorted(t) && x in multiset(t)
    ensures t[0] <= x
  {
    assert x in t;
    var k :| 0 <= k < |t| && t[k] == x;
    assert k == 0 || t[0] <= t[k];
  }

  /**
   * The middle of a non-empty sorted sequence: its middle value when its
   * length is odd, the mean of its two middle values when it is even.
   */
  function Middle(t: seq<real>): (m: real)
    requires |t| > 0 && IsSorted(t)
    ensures forall i :: 0 <= i <= (|t| - 1) / 2 ==> t[i] <= m
    ensures forall i :: |t| / 2 <= i < |t| ==> m <= t[i]
  {
    var h := |t| / 2;
    if |t| % 2 == 1 then
      assert (|t| - 1) / 2 == h;
      t[h]
    else
      assert (|t| - 1) / 2 == h - 1;
      assert t[h - 1] <= t[h];
      (t[h - 1] + t[h]) / 2.0
  }

  /**
   * The median of a non-empty sequence. At least half of the sorted values
   * (counting from the bottom) lie at or below it and at least half (counting
   * from the top) lie at or above it.
   */
  function Median(s: seq<real>): (m: real)
    requires |s| > 0
    ensures forall i :: 0 <= i <= (|s| - 1) / 2 ==> Sort(s)[i] <= m
    ensures forall i :: |s| / 2 <= i < |s| ==> m <= Sort(s)[i]
  {
    Middle(Sort(s))
  }

  /** Every value of the sorted sequence is one of the input values. */
  lemma SortedFromInput(s: seq<real>, k: nat)
    requires k < |s|
    ensures exists i :: 0 <= i < |s| && Sort(s)[k] == s[i]
  {
    assert Sort(s)[k] in multiset(Sort(s));
    assert Sort(s)[k] in s;
  }

  /** The median depends only on the values, not on their order. */
  lemma MedianOfPermutation(s: seq<real>, s': seq<real>)
    requires |s| > 0
    requires multiset(s) == multiset(s')
    ensures |s'| > 0 && Median(s) == Median(s')
  {
    assert |s| == |multiset(s)| == |multiset(s')| == |s'|;
    SortedUnique(Sort(s), Sort(s'));
  }

  /** A lower bound of all values is a lower bound of the median. */
  lemma MedianAtLeast(s: seq<real>, lo: real)
    requires |s| > 0
    requires forall i :: 0 <= i < |s| ==> lo <= s[i]
    ensures lo <= Median(s)
  {
    SortedFromInput(s, 0);
  }

  /** An upper bound of all values is an upper bound of the median. */
  lemma MedianAtMost(s: seq<real>, hi: real)
    requires |s| > 0
    requires forall i :: 0 <= i < |s| ==> s[i] <= hi
    ensures Median(s) <= hi
  {
    SortedFromInput(s, |s| - 1);
  }
}

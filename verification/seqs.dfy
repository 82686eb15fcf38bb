/**
 Sequence facts behind the dashboard's column operations: the distinct values of a
 column in order of first appearance (what a data frame's `unique()` returns), and
 order-preserving selection of rows (a subsequence).
 */
module Seqs {

  /** No element occurs twice in `s`. */
  predicate NoDuplicates<T(==)>(s: seq<T>) {
    forall i, j :: 0 <= i < j < |s| ==> s[i] != s[j]
  }

  /** Position of the first occurrence of `x` in `s`. */
  function IndexOf<T(==)>(s: seq<T>, x: T): (k: nat)
    requires x in s
    ensures k < |s| && s[k] == x
    ensures x !in s[..k]
  {
    if s[0] == x then 0
    else
      var k := IndexOf(s[1..], x);
      assert s[..k + 1] == [s[0]] + s[1..][..k];
      k + 1
  }

  /** Any position that holds the first occurrence of its element is what `IndexOf` finds. */
  lemma {:induction false} IndexOfFirst<T>(s: seq<T>, k: nat)
    requires k < |s| && s[k] !in s[..k]
    ensures IndexOf(s, s[k]) == k
  {
    var j := IndexOf(s, s[k]);
  }

  /** Extending a sequence does not move the first occurrence of an element already present. */
  lemma {:induction false} IndexOfPrefix<T>(s: seq<T>, m: nat)
    requires m <= |s|
    ensures forall x :: x in s[..m] ==> x in s && IndexOf(s[..m], x) == IndexOf(s, x)
  {
    forall x | x in s[..m]
      ensures x in s && IndexOf(s[..m], x) == IndexOf(s, x)
    {
      var k := IndexOf(s[..m], x);
      assert s[..m][..k] == s[..k];
      IndexOfFirst(s, k);
    }
  }

  /** The elements of `r` occur in `s` in the same order as their first occurrences in `s`. */
  predicate InFirstAppearanceOrder<T(==)>(r: seq<T>, s: seq<T>) {
    forall i, j :: 0 <= i < j < |r| && r[i] in s && r[j] in s ==> IndexOf(s, r[i]) < IndexOf(s, r[j])
  }

  /** `r` lists every element of `s` exactly once, in order of first appearance in `s`. */
  predicate ListsFirstAppearances<T(==)>(r: seq<T>, s: seq<T>) {
    && NoDuplicates(r)
    && (forall i :: 0 <= i < |r| ==> r[i] in s)
    && (forall i :: 0 <= i < |s| ==> s[i] in r)
    && InFirstAppearanceOrder(r, s)
  }

  /** The distinct elements of `s`, in order of first appearance. */
  function Distinct<T(==)>(s: seq<T>): (r: seq<T>)
    ensures ListsFirstAppearances(r, s)
  {
    if |s| == 0 then []
    else
      var init, last := s[..|s| - 1], s[|s| - 1];
      var d := Distinct(init);
      assert s == init + [last];
      IndexOfPrefix(s, |s| - 1);
      if last in d then d
      else
        IndexOfFirst(s, |s| - 1);
        d + [last]
  }

  /** Dropping the head of a duplicate-free sequence removes exactly that element. */
  lemma {:induction false} TailMembers<T>(r: seq<T>)
    requires |r| > 0 && NoDuplicates(r)
    ensures forall x :: x in r[1..] <==> x in r && x != r[0]
  {
    forall x | x in r && x != r[0] ensures x in r[1..] {
      var a :| 0 <= a < |r| && r[a] == x;
      assert r[1..][a - 1] == x;
    }
  }

  /** Two ordered lists with the same elements start with the same element. */
  lemma {:induction false} OrderedListsSameHead<T>(r1: seq<T>, r2: seq<T>, s: seq<T>)
    requires |r1| > 0 && |r2| > 0
    requires r1[0] in r2 && r2[0] in r1 && r1[0] in s && r2[0] in s
    requires InFirstAppearanceOrder(r1, s) && InFirstAppearanceOrder(r2, s)
    ensures r1[0] == r2[0]
  {
    var j :| 0 <= j < |r2| && r2[j] == r1[0];
    var i :| 0 <= i < |r1| && r1[i] == r2[0];
  }

  /** Two duplicate-free sequences with the same elements, both ordered by first appearance in `s`, are equal. */
  lemma {:induction false} OrderedListsEqual<T>(r1: seq<T>, r2: seq<T>, s: seq<T>)
    requires NoDuplicates(r1) && NoDuplicates(r2)
    requires forall x :: x in r1 <==> x in r2
    requires forall x :: x in r1 ==> x in s
    requires InFirstAppearanceOrder(r1, s) && InFirstAppearanceOrder(r2, s)
    ensures r1 == r2
    decreases |r1|
  {
    if |r2| != 0 {
      assert r2[0] in r2;
    }
    if |r1| != 0 {
      assert r1[0] in r1;
      OrderedListsSameHead(r1, r2, s);
      TailMembers(r1);
      TailMembers(r2);
      var t1, t2 := r1[1..], r2[1..];
      assert NoDuplicates(t1) && NoDuplicates(t2);
      assert InFirstAppearanceOrder(t1, s) && InFirstAppearanceOrder(t2, s);
      OrderedListsEqual(t1, t2, s);
      assert r1 == [r1[0]] + t1;
      assert r2 == [r2[0]] + t2;
    }
  }

  /** `Distinct` is the only sequence that lists the elements of `s` once each in first-appearance order. */
  lemma {:induction false} DistinctIsUnique<T>(s: seq<T>, r: seq<T>)
    requires ListsFirstAppearances(r, s)
    ensures r == Distinct(s)
  {
    OrderedListsEqual(r, Distinct(s), s);
  }

  /** `a` is obtained from `b` by deleting elements, keeping the order of the rest. */
  predicate IsSubsequence<T(==)>(a: seq<T>, b: seq<T>)
    decreases |b|
  {
    |a| == 0 || (|b| > 0 && ((a[0] == b[0] && IsSubsequence(a[1..], b[1..])) || IsSubsequence(a, b[1..])))
  }

  lemma {:induction false} SubsequenceReflexive<T>(s: seq<T>)
    ensures IsSubsequence(s, s)
    decreases |s|
  {
    if |s| > 0 {
      SubsequenceReflexive(s[1..]);
    }
  }

  lemma {:induction false} SubsequenceLength<T>(a: seq<T>, b: seq<T>)
    requires IsSubsequence(a, b)
    ensures |a| <= |b|
    decreases |b|
  {
    if |a| > 0 {
      if a[0] == b[0] && IsSubsequence(a[1..], b[1..]) {
        SubsequenceLength(a[1..], b[1..]);
      } else {
        SubsequenceLength(a, b[1..]);
      }
    }
  }
}

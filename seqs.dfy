/** Sequence facts shared by the analytics and the ranking: keeping first
    occurrences (the `seen` set idiom), first positions, and counting. */
module Seqs {

  /** The position of the first occurrence of x in s (Array.prototype.indexOf). */
  function FirstIndex<T(==)>(s: seq<T>, x: T): (i: nat)
    requires x in s
    ensures i < |s| && s[i] == x
    ensures forall j | 0 <= j < i :: s[j] != x
  {
    if s[0] == x then 0 else 1 + FirstIndex(s[1..], x)
  }

  /** A first occurrence inside a prefix is the first occurrence in the whole sequence. */
  lemma FirstIndexPrefix<T>(s: seq<T>, k: nat, x: T)
    requires k <= |s| && x in s[..k]
    ensures x in s && FirstIndex(s, x) == FirstIndex(s[..k], x)
  {
    var i := FirstIndex(s[..k], x);
    assert s[i] == x;
    var j := FirstIndex(s, x);
    assert j <= i;
    assert s[..k][j] == x;
  }

  /** Where an element first occurs after one more is appended. */
  lemma FirstIndexSnoc<T>(s: seq<T>, e: T, x: T)
    requires x in s + [e]
    ensures FirstIndex(s + [e], x) == if x in s then FirstIndex(s, x) else |s|
  {
    if x in s {
      assert (s + [e])[..|s|] == s;
      FirstIndexPrefix(s + [e], |s|, x);
    }
  }

  /** The elements of s with later repeats dropped: what a left-to-right loop
      with a `seen` set keeps. */
  function Dedupe<T(==,!new)>(s: seq<T>): (r: seq<T>)
    ensures forall x :: x in r <==> x in s
    ensures forall i, j | 0 <= i < j < |r| :: r[i] != r[j]
    ensures |r| <= |s|
  {
    if |s| == 0 then []
    else
      var d := Dedupe(s[..|s| - 1]);
      if s[|s| - 1] in d then d else d + [s[|s| - 1]]
  }

  /** One more element at the end is kept exactly when it is new. */
  lemma DedupeSnoc<T(!new)>(s: seq<T>, x: T)
    ensures Dedupe(s + [x]) == if x in Dedupe(s) then Dedupe(s) else Dedupe(s) + [x]
  {
    assert (s + [x])[..|s|] == s;
  }

  /** Dedupe lists elements in the order of their first occurrence. */
  lemma {:induction false} DedupeFirstOccurrenceOrder<T(!new)>(s: seq<T>)
    ensures forall i, j | 0 <= i < j < |Dedupe(s)| ::
              FirstIndex(s, Dedupe(s)[i]) < FirstIndex(s, Dedupe(s)[j])
  {
    if |s| > 0 {
      var n := |s| - 1;
      var p := s[..n];
      var d := Dedupe(p);
      var r := Dedupe(s);
      DedupeFirstOccurrenceOrder(p);
      assert r == if s[n] in d then d else d + [s[n]];
      forall i, j | 0 <= i < j < |r| ensures FirstIndex(s, r[i]) < FirstIndex(s, r[j]) {
        assert r[i] == d[i] && d[i] in p;
        FirstIndexPrefix(s, n, d[i]);
        if j < |d| {
          assert r[j] == d[j] && d[j] in p;
          FirstIndexPrefix(s, n, d[j]);
        } else {
          assert r[j] == s[n] && s[n] !in p;
          assert FirstIndex(s, s[n]) == n;
        }
      }
    }
  }

  /** Number of elements of s that satisfy p. */
  function CountWhere<T>(s: seq<T>, p: T -> bool): (n: nat)
    ensures n <= |s|
  {
    if |s| == 0 then 0 else CountWhere(s[..|s| - 1], p) + (if p(s[|s| - 1]) then 1 else 0)
  }

  /** Counting one more element at the end. */
  lemma CountWhereSnoc<T>(s: seq<T>, x: T, p: T -> bool)
    ensures CountWhere(s + [x], p) == CountWhere(s, p) + (if p(x) then 1 else 0)
  {
    assert (s + [x])[..|s|] == s;
  }

  lemma {:induction false} CountWhereAppend<T>(a: seq<T>, b: seq<T>, p: T -> bool)
    ensures CountWhere(a + b, p) == CountWhere(a, p) + CountWhere(b, p)
  {
    if |b| > 0 {
      assert (a + b)[..|a + b| - 1] == a + b[..|b| - 1];
      CountWhereAppend(a, b[..|b| - 1], p);
    } else {
      assert a + b == a;
    }
  }

  /** Removing one element lowers the count by one exactly when it satisfies p. */
  lemma {:induction false} CountWhereRemove<T>(t: seq<T>, k: nat, p: T -> bool)
    requires k < |t|
    ensures CountWhere(t, p) == CountWhere(t[..k] + t[k + 1..], p) + (if p(t[k]) then 1 else 0)
    ensures multiset(t[..k] + t[k + 1..]) == multiset(t) - multiset{t[k]}
  {
    var a, x, b := t[..k], t[k], t[k + 1..];
    var xb := [x] + b;
    assert t == a + xb;
    CountWhereAppend(a, xb, p);
    CountWhereAppend([x], b, p);
    CountWhereAppend(a, b, p);
    CountWhereSingle(x, p);
    assert multiset(t) == multiset(a) + multiset(xb);
    assert multiset(xb) == multiset{x} + multiset(b);
  }

  lemma CountWhereSingle<T>(x: T, p: T -> bool)
    ensures CountWhere([x], p) == if p(x) then 1 else 0
  {
    assert [x][..0] == [];
  }

  /** Counting does not depend on the order of the elements. */
  lemma {:induction false} CountWherePermutation<T>(s: seq<T>, t: seq<T>, p: T -> bool)
    requires multiset(s) == multiset(t)
    ensures CountWhere(s, p) == CountWhere(t, p)
    decreases |s|
  {
    if |s| == 0 {
      assert t == [];
    } else {
      var x := s[|s| - 1];
      var s' := s[..|s| - 1];
      assert s == s' + [x];
      assert multiset(s') == multiset(s) - multiset{x};
      assert x in multiset(t);
      var k :| 0 <= k < |t| && t[k] == x;
      CountWhereRemove(t, k, p);
      CountWherePermutation(s', t[..k] + t[k + 1..], p);
    }
  }
}

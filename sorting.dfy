/** A stable insertion sort under a comparator, standing for Array.prototype.sort
    (which is stable). The ranking lists and the percentile sample are sorted with it. */
module Sorting {

  /** `le(a, b)`: a may stand before b (the comparator returns a value <= 0). */
  ghost predicate TotalPreorder<T(!new)>(le: (T, T) -> bool) {
    && (forall a, b :: le(a, b) || le(b, a))
    && (forall a, b, c :: le(a, b) && le(b, c) ==> le(a, c))
  }

  ghost predicate SortedBy<T>(s: seq<T>, le: (T, T) -> bool) {
    forall i, j | 0 <= i < j < |s| :: le(s[i], s[j])
  }

  /** Inserts x after every leading element that may stand before it, so that
      equal elements keep their order. */
  function Insert<T>(s: seq<T>, x: T, le: (T, T) -> bool): (r: seq<T>)
    ensures multiset(r) == multiset(s) + multiset{x} && |r| == |s| + 1
  {
    if s == [] then [x]
    else if le(s[0], x) then
      assert s == [s[0]] + s[1..];
      [s[0]] + Insert(s[1..], x, le)
    else [x] + s
  }

  lemma {:induction false} InsertSorted<T(!new)>(s: seq<T>, x: T, le: (T, T) -> bool)
    requires TotalPreorder(le) && SortedBy(s, le)
    ensures SortedBy(Insert(s, x, le), le)
  {
    if s != [] {
      var r := Insert(s, x, le);
      if le(s[0], x) {
        var tail := Insert(s[1..], x, le);
        InsertSorted(s[1..], x, le);
        assert r == [s[0]] + tail;
        forall j | 1 <= j < |r| ensures le(r[0], r[j]) {
          assert r[j] == tail[j - 1];
          assert r[j] in multiset(s[1..]) + multiset{x};
          if r[j] != x {
            assert r[j] in s[1..];
          }
        }
      } else {
        assert le(x, s[0]);
      }
    }
  }

  /** Sorts s under le: the result is ordered and is a permutation of s. */
  function Sort<T(!new)>(s: seq<T>, le: (T, T) -> bool): (r: seq<T>)
    requires TotalPreorder(le)
    ensures multiset(r) == multiset(s) && |r| == |s|
    ensures SortedBy(r, le)
  {
    if s == [] then []
    else
      var init := Sort(s[..|s| - 1], le);
      assert s == s[..|s| - 1] + [s[|s| - 1]];
      InsertSorted(init, s[|s| - 1], le);
      Insert(init, s[|s| - 1], le)
  }

  /** The elements of s that tie with y (each may stand before the other), in
      their order in s. */
  function Ties<T>(s: seq<T>, y: T, le: (T, T) -> bool): seq<T> {
    if s == [] then []
    else (if le(s[0], y) && le(y, s[0]) then [s[0]] else []) + Ties(s[1..], y, le)
  }

  lemma {:induction false} TiesSnoc<T>(s: seq<T>, x: T, y: T, le: (T, T) -> bool)
    ensures Ties(s + [x], y, le) == Ties(s, y, le) + (if le(x, y) && le(y, x) then [x] else [])
  {
    if s != [] {
      assert (s + [x])[1..] == s[1..] + [x];
      TiesSnoc(s[1..], x, y, le);
    }
  }

  lemma SortedTail<T>(s: seq<T>, le: (T, T) -> bool)
    requires SortedBy(s, le) && s != []
    ensures SortedBy(s[1..], le)
  {
    forall i, j | 0 <= i < j < |s| - 1 ensures le(s[1..][i], s[1..][j]) {
      assert s[1..][i] == s[i + 1] && s[1..][j] == s[j + 1];
    }
  }

  /** The ties of a list led by a. */
  lemma TiesCons<T>(a: T, t: seq<T>, y: T, le: (T, T) -> bool)
    ensures Ties([a] + t, y, le) == (if le(a, y) && le(y, a) then [a] else []) + Ties(t, y, le)
  {
    assert ([a] + t)[1..] == t;
  }

  /** The ties of a list, split before its last element. */
  lemma TiesLast<T>(s: seq<T>, y: T, le: (T, T) -> bool)
    requires s != []
    ensures var n := |s| - 1;
            Ties(s, y, le) == Ties(s[..n], y, le) + (if le(s[n], y) && le(y, s[n]) then [s[n]] else [])
  {
    var n := |s| - 1;
    TiesSnoc(s[..n], s[n], y, le);
    assert s[..n] + [s[n]] == s;
  }

  /** No element of a sorted list that x may not stand after ties with x. */
  lemma {:induction false} TiesNone<T(!new)>(s: seq<T>, x: T, y: T, le: (T, T) -> bool)
    requires TotalPreorder(le) && SortedBy(s, le)
    requires s != [] && !le(s[0], x) && le(x, y) && le(y, x)
    ensures Ties(s, y, le) == []
  {
    if |s| > 1 {
      assert le(s[0], s[1]);
      assert !le(s[1], x);
      SortedTail(s, le);
      TiesNone(s[1..], x, y, le);
    }
  }

  /** Inserting x in front of a sorted list whose first element may not
      stand before it: no element of the list ties with x. */
  lemma InsertTiesFront<T(!new)>(s: seq<T>, x: T, y: T, le: (T, T) -> bool)
    requires TotalPreorder(le) && SortedBy(s, le) && s != [] && !le(s[0], x)
    ensures Ties(Insert(s, x, le), y, le) == Ties(s, y, le) + (if le(x, y) && le(y, x) then [x] else [])
  {
    TiesCons(x, s, y, le);
    if le(x, y) && le(y, x) {
      TiesNone(s, x, y, le);
    }
  }

  /** Inserting x into a sorted list places it after every element tied
      with it. */
  lemma {:induction false} InsertTies<T(!new)>(s: seq<T>, x: T, y: T, le: (T, T) -> bool)
    requires TotalPreorder(le) && SortedBy(s, le)
    ensures Ties(Insert(s, x, le), y, le) == Ties(s, y, le) + (if le(x, y) && le(y, x) then [x] else [])
  {
    if s == [] {
      TiesCons(x, [], y, le);
    } else if le(s[0], x) {
      SortedTail(s, le);
      InsertTies(s[1..], x, y, le);
      TiesCons(s[0], Insert(s[1..], x, le), y, le);
    } else {
      InsertTiesFront(s, x, y, le);
    }
  }

  /** The sort is stable: the elements tied with any y come out in the order
      they went in. */
  lemma {:induction false} SortStable<T(!new)>(s: seq<T>, y: T, le: (T, T) -> bool)
    requires TotalPreorder(le)
    ensures Ties(Sort(s, le), y, le) == Ties(s, y, le)
  {
    if s != [] {
      var n := |s| - 1;
      SortStable(s[..n], y, le);
      InsertTies(Sort(s[..n], le), s[n], y, le);
      TiesLast(s, y, le);
    }
  }
}

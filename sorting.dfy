/**
 * Python's `sorted(...)` / `list.sort(...)` with a key, modelled as a stable
 * insertion sort parameterised by a "sorts no later than" relation.  The rest
 * of the model uses it for `ORDER BY` clauses and for `sort(key=..., reverse=True)`.
 */
module Sorting {

  /** `le` is total and transitive, as the comparison of a sort key is. */
  ghost predicate TotalPreorder<T(!new)>(le: (T, T) -> bool) {
    (forall a, b :: le(a, b) || le(b, a)) &&
    (forall a, b, c :: le(a, b) && le(b, c) ==> le(a, c))
  }

  /** Every element sorts no later than every element after it. */
  ghost predicate SortedBy<T>(s: seq<T>, le: (T, T) -> bool) {
    forall i, j :: 0 <= i < j < |s| ==> le(s[i], s[j])
  }

  /** Puts `x` in front of the first element it sorts no later than. */
  function Insert<T>(x: T, s: seq<T>, le: (T, T) -> bool): (r: seq<T>)
    ensures multiset(r) == multiset(s) + multiset{x}
    ensures |r| == |s| + 1
  {
    if s == [] || le(x, s[0]) then [x] + s
    else
      assert s == [s[0]] + s[1..];
      [s[0]] + Insert(x, s[1..], le)
  }

  function Sort<T>(s: seq<T>, le: (T, T) -> bool): (r: seq<T>)
    ensures multiset(r) == multiset(s)
    ensures |r| == |s|
  {
    if s == [] then []
    else
      assert s == [s[0]] + s[1..];
      Insert(s[0], Sort(s[1..], le), le)
  }

  lemma {:induction false} InsertSorted<T(!new)>(x: T, s: seq<T>, le: (T, T) -> bool)
    requires TotalPreorder(le) && SortedBy(s, le)
    ensures SortedBy(Insert(x, s, le), le)
  {
    if s != [] && !le(x, s[0]) {
      InsertSorted(x, s[1..], le);
      var r := Insert(x, s[1..], le);
      assert le(s[0], x);
      forall k | 0 <= k < |r| ensures le(s[0], r[k]) {
        assert r[k] in multiset(r);
        assert r[k] == x || r[k] in multiset(s[1..]);
        if r[k] != x {
          var m :| 0 <= m < |s[1..]| && s[1..][m] == r[k];
          assert s[m + 1] == r[k];
        }
      }
    }
  }

  /** The result is sorted and a permutation of the input. */
  lemma {:induction false} SortSorted<T(!new)>(s: seq<T>, le: (T, T) -> bool)
    requires TotalPreorder(le)
    ensures SortedBy(Sort(s, le), le)
    ensures multiset(Sort(s, le)) == multiset(s)
  {
    if s != [] {
      SortSorted(s[1..], le);
      InsertSorted(s[0], Sort(s[1..], le), le);
    }
  }

  /** The elements of `s` that sort level with `x` (each no later than the
      other), in their order in `s`. */
  function Tied<T>(s: seq<T>, le: (T, T) -> bool, x: T): seq<T> {
    if s == [] then []
    else (if le(s[0], x) && le(x, s[0]) then [s[0]] else []) + Tied(s[1..], le, x)
  }

  /** The two cases of `Insert`, one step each. */
  lemma InsertStep<T>(a: T, s: seq<T>, le: (T, T) -> bool)
    ensures s == [] || le(a, s[0]) ==> Insert(a, s, le) == [a] + s
    ensures s != [] && !le(a, s[0]) ==> Insert(a, s, le) == [s[0]] + Insert(a, s[1..], le)
  {
  }

  /** `Tied` of a list with a given first element. */
  lemma TiedCons<T>(h: T, t: seq<T>, le: (T, T) -> bool, x: T)
    ensures Tied([h] + t, le, x) == (if le(h, x) && le(x, h) then [h] else []) + Tied(t, le, x)
  {
    assert ([h] + t)[1..] == t;
  }

  /** Inserting puts `a` in front of the elements level with it and leaves
      the order of every other tie class alone. */
  lemma {:induction false} InsertTied<T(!new)>(a: T, s: seq<T>, le: (T, T) -> bool, x: T)
    requires TotalPreorder(le)
    ensures Tied(Insert(a, s, le), le, x) ==
      (if le(a, x) && le(x, a) then [a] else []) + Tied(s, le, x)
  {
    InsertStep(a, s, le);
    if s == [] || le(a, s[0]) {
      TiedCons(a, s, le, x);
    } else {
      var r := Insert(a, s[1..], le);
      var front := if le(a, x) && le(x, a) then [a] else [];
      var first := if le(s[0], x) && le(x, s[0]) then [s[0]] else [];
      var tail := Tied(s[1..], le, x);
      TiedCons(s[0], r, le, x);
      InsertTied(a, s[1..], le, x);
      assert s == [s[0]] + s[1..];
      TiedCons(s[0], s[1..], le, x);
      assert Tied(Insert(a, s, le), le, x) == first + (front + tail);
      assert Tied(s, le, x) == first + tail;
      if front != [] {
        assert !le(a, s[0]);
        assert first == [];
        assert first + (front + tail) == front + tail;
      } else {
        assert front + (first + tail) == first + tail;
      }
    }
  }

  /** The sort is stable: the elements of each tie class keep their order. */
  lemma {:induction false} SortStable<T(!new)>(s: seq<T>, le: (T, T) -> bool, x: T)
    requires TotalPreorder(le)
    ensures Tied(Sort(s, le), le, x) == Tied(s, le, x)
  {
    if s != [] {
      SortStable(s[1..], le, x);
      InsertTied(s[0], Sort(s[1..], le), le, x);
    }
  }

  /** Sorting a list made of the elements of `s` keeps exactly the elements of `s`. */
  lemma SortMembers<T>(s: seq<T>, le: (T, T) -> bool, x: T)
    ensures x in Sort(s, le) <==> x in s
  {
    assert x in multiset(Sort(s, le)) <==> x in multiset(s);
  }

  /** In a sorted list, an element of the first `n` sorts no later than one
      outside them. */
  lemma SortedPrefixFirst<T>(s: seq<T>, n: nat, le: (T, T) -> bool, x: T, y: T)
    requires SortedBy(s, le) && n <= |s|
    requires x in s[..n] && y in s && y !in s[..n]
    ensures le(x, y)
  {
    var i :| 0 <= i < n && s[..n][i] == x;
    var j :| 0 <= j < |s| && s[j] == y;
    assert forall k :: 0 <= k < n ==> s[..n][k] == s[k];
    assert j >= n;
    assert s[i] == x;
  }

  /** Python's `xs[:n]`: a negative `n` counts from the end. */
  function Take<T>(s: seq<T>, n: int): (r: seq<T>)
    ensures |r| <= |s|
    ensures n >= 0 ==> |r| == if n <= |s| then n else |s|
    ensures n < 0 ==> |r| == if -n <= |s| then |s| + n else 0
    ensures r == s[..|r|]
  {
    if n >= 0 then (if n <= |s| then s[..n] else s)
    else if -n <= |s| then s[..|s| + n]
    else []
  }

  /** SQL `LIMIT n`: the first `n` rows; a negative `n` (SQLite) sets no bound. */
  function Limit<T>(s: seq<T>, n: int): (r: seq<T>)
    ensures |r| <= |s| && r == s[..|r|]
    ensures n < 0 ==> r == s
    ensures n >= 0 ==> |r| == if n <= |s| then n else |s|
  {
    if 0 <= n <= |s| then s[..n] else s
  }
}

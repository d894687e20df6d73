/**
  Orderings used by the queries: primary-key order for table scans,
  `ORDER BY position ASC` as an insertion sort, and `COALESCE(MAX(position), 0)`.
 */
module Ordering {

  predicate StrictlyIncreasing(s: seq<int>) {
    forall i, j :: 0 <= i < j < |s| ==> s[i] < s[j]
  }

  /** Ids of a sequence of rows strictly increase. */
  predicate IncreasingBy<T>(s: seq<T>, id: T -> int) {
    forall i, j :: 0 <= i < j < |s| ==> id(s[i]) < id(s[j])
  }

  predicate SortedBy<T>(s: seq<T>, key: T -> int) {
    forall i, j :: 0 <= i < j < |s| ==> key(s[i]) <= key(s[j])
  }

  predicate Distinct<T(==)>(s: seq<T>) {
    forall i, j :: 0 <= i < j < |s| ==> s[i] != s[j]
  }

  lemma MinimumExists(s: set<int>)
    requires s != {}
    ensures exists m :: m in s && forall k :: k in s ==> m <= k
  {
    var x := Pick(s);
    if s == {x} {
      assert forall k :: k in s ==> x <= k;
    } else {
      MinimumExists(s - {x});
      var m :| m in s - {x} && forall k :: k in s - {x} ==> m <= k;
      var least := if x < m then x else m;
      forall k | k in s
        ensures least <= k
      {
        if k != x {
          assert k in s - {x};
        }
      }
      assert least in s;
    }
  }

  lemma Pick(s: set<int>) returns (x: int)
    requires s != {}
    ensures x in s
  {
    if forall y :: y !in s {
      assert false;
    }
    x :| x in s;
  }

  /** An ascending key sequence is its least key followed by the ascending rest. */
  lemma IncreasingKeysTail(keys: seq<int>)
    requires StrictlyIncreasing(keys) && |keys| > 0
    ensures StrictlyIncreasing(keys[1..])
    ensures forall k :: k in keys[1..] ==> keys[0] < k
    ensures forall k :: k in keys <==> k == keys[0] || k in keys[1..]
  {
    forall k | k in keys[1..]
      ensures keys[0] < k
    {
      var i :| 0 <= i < |keys[1..]| && keys[1..][i] == k;
      assert keys[i + 1] == k;
    }
    assert keys == [keys[0]] + keys[1..];
  }

  /** Putting a row with a smaller id in front keeps a sequence id-ordered. */
  lemma ConsIncreasing<T>(x: T, rest: seq<T>, id: T -> int)
    requires IncreasingBy(rest, id) && forall y :: y in rest ==> id(x) < id(y)
    ensures IncreasingBy([x] + rest, id)
  {
    var s := [x] + rest;
    forall i, j | 0 <= i < j < |s|
      ensures id(s[i]) < id(s[j])
    {
      assert s[j] == rest[j - 1];
      if i > 0 {
        assert s[i] == rest[i - 1];
      }
    }
  }

  /** The keys of a table in ascending order: the order of a primary-key scan. */
  function SortedKeys(s: set<int>): (r: seq<int>)
    ensures forall k :: k in r <==> k in s
    ensures StrictlyIncreasing(r)
    decreases s
  {
    if s == {} then []
    else
      MinimumExists(s);
      var m :| m in s && forall k :: k in s ==> m <= k;
      [m] + SortedKeys(s - {m})
  }

  /** Inserts `x` before the first element whose key is not smaller. */
  function Insert<T(==,!new)>(x: T, s: seq<T>, key: T -> int): (r: seq<T>)
    requires SortedBy(s, key)
    ensures SortedBy(r, key)
    ensures multiset(r) == multiset(s) + multiset{x}
    ensures forall y :: y in r <==> y == x || y in s
    ensures Distinct(s) && x !in s ==> Distinct(r)
    decreases |s|
  {
    if |s| == 0 then [x]
    else if key(x) <= key(s[0]) then
      InsertFront(x, s, key);
      [x] + s
    else
      var rest := Insert(x, s[1..], key);
      HeadBelowRest(s, x, rest, key);
      ConsFacts(s, x, rest);
      [s[0]] + rest
  }

  lemma InsertFront<T>(x: T, s: seq<T>, key: T -> int)
    requires |s| > 0 && SortedBy(s, key) && key(x) <= key(s[0])
    ensures SortedBy([x] + s, key)
    ensures Distinct(s) && x !in s ==> Distinct([x] + s)
  {
    var r := [x] + s;
    forall i, j | 0 <= i < j < |r|
      ensures key(r[i]) <= key(r[j])
    {
      assert r[j] == s[j - 1];
      if i > 0 {
        assert r[i] == s[i - 1];
      }
    }
    if Distinct(s) && x !in s {
      DistinctCons(x, s);
    }
  }

  /** Putting the head of `s` back in front of `rest`, which holds the tail of `s` and `x`. */
  lemma ConsFacts<T>(s: seq<T>, x: T, rest: seq<T>)
    requires |s| > 0
    requires multiset(rest) == multiset(s[1..]) + multiset{x}
    requires forall y :: y in rest <==> y == x || y in s[1..]
    requires Distinct(s[1..]) && x !in s[1..] ==> Distinct(rest)
    ensures multiset([s[0]] + rest) == multiset(s) + multiset{x}
    ensures forall y :: y in [s[0]] + rest <==> y == x || y in s
    ensures Distinct(s) && x !in s ==> Distinct([s[0]] + rest)
  {
    assert s == [s[0]] + s[1..];
    if Distinct(s) && x !in s {
      forall i, j | 0 <= i < j < |s[1..]|
        ensures s[1..][i] != s[1..][j]
      {
        assert s[1..][i] == s[i + 1] && s[1..][j] == s[j + 1];
      }
      assert s[0] !in s[1..];
      DistinctCons(s[0], rest);
    }
  }

  lemma DistinctCons<T>(h: T, t: seq<T>)
    requires Distinct(t) && h !in t
    ensures Distinct([h] + t)
  {
    var r := [h] + t;
    forall i, j | 0 <= i < j < |r|
      ensures r[i] != r[j]
    {
      assert r[j] == t[j - 1];
      if i > 0 {
        assert r[i] == t[i - 1];
      }
    }
  }

  /** The head of a sorted sequence stays below everything inserted after it. */
  lemma HeadBelowRest<T>(s: seq<T>, x: T, rest: seq<T>, key: T -> int)
    requires |s| > 0 && SortedBy(s, key) && key(s[0]) < key(x)
    requires SortedBy(rest, key)
    requires forall y :: y in rest ==> y == x || y in s[1..]
    ensures SortedBy([s[0]] + rest, key)
  {
    forall k | 0 <= k < |rest|
      ensures key(s[0]) <= key(rest[k])
    {
      var y := rest[k];
      assert y in rest;
      if y != x {
        var m :| 0 <= m < |s[1..]| && s[1..][m] == y;
        assert s[m + 1] == y;
      }
    }
    var r := [s[0]] + rest;
    forall i, j | 0 <= i < j < |r|
      ensures key(r[i]) <= key(r[j])
    {
      assert r[j] == rest[j - 1];
      if i > 0 {
        assert r[i] == rest[i - 1];
      }
    }
  }

  /** A sorted or duplicate-free sequence, seen as its front and its last element. */
  lemma SnocParts<T>(s: seq<T>, key: T -> int)
    requires |s| > 0
    ensures SortedBy(s, key) ==> SortedBy(s[..|s| - 1], key)
    ensures SortedBy(s, key) ==> forall x :: x in s[..|s| - 1] ==> key(x) <= key(s[|s| - 1])
    ensures Distinct(s) ==> Distinct(s[..|s| - 1]) && s[|s| - 1] !in s[..|s| - 1]
  {
    var init := s[..|s| - 1];
    if SortedBy(s, key) {
      forall x | x in init
        ensures key(x) <= key(s[|s| - 1])
      {
        var k :| 0 <= k < |init| && init[k] == x;
        assert s[k] == x;
      }
    }
  }

  lemma SnocMember<T>(s: seq<T>, x: T)
    requires |s| > 0
    ensures x in s <==> x in s[..|s| - 1] || x == s[|s| - 1]
  {
    assert s == s[..|s| - 1] + [s[|s| - 1]];
  }

  lemma SnocSorted<T>(r: seq<T>, x: T, key: T -> int)
    ensures SortedBy(r, key) && (forall y :: y in r ==> key(y) <= key(x)) ==> SortedBy(r + [x], key)
  {
    var s := r + [x];
    forall i, j | 0 <= i < j < |s| && SortedBy(r, key) && (forall y :: y in r ==> key(y) <= key(x))
      ensures key(s[i]) <= key(s[j])
    {
      assert s[i] == r[i];
      if j == |r| {
        assert s[i] in r;
      } else {
        assert s[j] == r[j];
      }
    }
  }

  lemma SnocDistinct<T>(r: seq<T>, x: T)
    ensures Distinct(r) && x !in r ==> Distinct(r + [x])
  {
    var s := r + [x];
    forall i, j | 0 <= i < j < |s| && Distinct(r) && x !in r
      ensures s[i] != s[j]
    {
      assert s[i] == r[i];
      if j == |r| {
        assert s[i] in r;
      } else {
        assert s[j] == r[j];
      }
    }
  }

  /** `ORDER BY key ASC`; rows with equal keys keep their scan order. */
  function SortBy<T(==,!new)>(s: seq<T>, key: T -> int): (r: seq<T>)
    ensures SortedBy(r, key)
    ensures multiset(r) == multiset(s)
    ensures |r| == |s|
    ensures forall y :: y in r <==> y in s
    ensures Distinct(s) ==> Distinct(r)
  {
    if |s| == 0 then []
    else
      assert s == [s[0]] + s[1..];
      Insert(s[0], SortBy(s[1..], key), key)
  }

  /** `COALESCE(MAX(key), 0)`: zero for no rows, otherwise the greatest key. */
  function MaxOr0<T>(s: seq<T>, key: T -> int): (r: int)
    ensures |s| == 0 ==> r == 0
    ensures |s| > 0 ==> exists i :: 0 <= i < |s| && key(s[i]) == r
    ensures forall i :: 0 <= i < |s| ==> key(s[i]) <= r
  {
    if |s| == 0 then 0
    else if |s| == 1 then key(s[0])
    else
      var m := MaxOr0(s[1..], key);
      assert forall i :: 1 <= i < |s| ==> s[i] == s[1..][i - 1];
      if key(s[0]) >= m then key(s[0]) else m
  }

  /** Two id-ordered sequences with the same elements are the same sequence. */
  lemma {:induction false} IncreasingUnique<T>(a: seq<T>, b: seq<T>, id: T -> int)
    requires IncreasingBy(a, id) && IncreasingBy(b, id)
    requires forall x :: x in a <==> x in b
    ensures a == b
    decreases |a|
  {
    if |a| == 0 {
      HeadIsMember(b);
    } else {
      assert a[0] in b;
      assert b[0] in a;
      IncreasingTail(a, id, b[0]);
      IncreasingTail(b, id, a[0]);
      forall x
        ensures x in a[1..] <==> x in b[1..]
      {
        IncreasingTail(a, id, x);
        IncreasingTail(b, id, x);
      }
      IncreasingUnique(a[1..], b[1..], id);
      assert a == [a[0]] + a[1..];
      assert b == [b[0]] + b[1..];
    }
  }

  lemma HeadIsMember<T>(s: seq<T>)
    ensures |s| > 0 ==> s[0] in s
  {
  }

  /** The tail of an id-ordered sequence is everything but its head, all with larger ids. */
  lemma IncreasingTail<T>(a: seq<T>, id: T -> int, x: T)
    requires IncreasingBy(a, id) && |a| > 0
    ensures x in a[1..] <==> x in a && x != a[0]
    ensures x in a[1..] ==> id(a[0]) < id(x)
    ensures IncreasingBy(a[1..], id)
  {
    if x in a[1..] {
      var k :| 0 <= k < |a[1..]| && a[1..][k] == x;
      assert a[k + 1] == x;
    }
    if x in a && x != a[0] {
      var k :| 0 <= k < |a| && a[k] == x;
      assert a[1..][k - 1] == x;
    }
    forall i, j | 0 <= i < j < |a[1..]|
      ensures id(a[1..][i]) < id(a[1..][j])
    {
      assert a[1..][i] == a[i + 1] && a[1..][j] == a[j + 1];
    }
  }
}

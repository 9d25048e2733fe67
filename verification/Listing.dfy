/** Lists without repetition, declaration order, and sorting by a key. */
module Listing {
  ghost predicate Distinct<T>(s: seq<T>) {
    forall i, j :: 0 <= i < j < |s| ==> s[i] != s[j]
  }

  function Elements<T(==,!new)>(s: seq<T>): (r: set<T>)
    ensures forall x :: x in r <==> x in s
  {
    set x | x in s
  }

  lemma ElementsSnoc<T(!new)>(s: seq<T>, i: nat)
    requires Distinct(s) && i < |s|
    ensures Elements(s[..i + 1]) == Elements(s[..i]) + {s[i]}
    ensures s[i] in Elements(s) && s[i] !in Elements(s[..i])
  {
  }

  /** The position of the first occurrence, as Python's list.index reports it. */
  function IndexOf<T(==)>(s: seq<T>, x: T): (i: nat)
    requires x in s
    ensures i < |s| && s[i] == x && x !in s[..i]
  {
    if s[0] == x then 0 else
      assert s == [s[0]] + s[1..];
      var k := IndexOf(s[1..], x);
      assert s[..k + 1] == [s[0]] + s[1..][..k];
      k + 1
  }

  /** The members of S in the order in which the list names them. */
  function Restrict<T(==,!new)>(order: seq<T>, S: set<T>): (r: seq<T>)
    ensures forall x :: x in r <==> x in order && x in S
    ensures |r| <= |order|
  {
    if order == [] then []
    else
      assert order == order[..|order| - 1] + [order[|order| - 1]];
      var rest := Restrict(order[..|order| - 1], S);
      if order[|order| - 1] in S then rest + [order[|order| - 1]] else rest
  }

  lemma {:induction false} RestrictDistinct<T(!new)>(order: seq<T>, S: set<T>)
    requires Distinct(order)
    ensures Distinct(Restrict(order, S))
  {
    if order != [] {
      var x := order[|order| - 1];
      RestrictDistinct(order[..|order| - 1], S);
      assert x !in order[..|order| - 1];
      assert x !in Restrict(order[..|order| - 1], S);
    }
  }

  lemma {:induction false} RestrictAll<T(!new)>(order: seq<T>, S: set<T>)
    requires Elements(order) <= S
    ensures Restrict(order, S) == order
  {
    if order != [] {
      assert order == order[..|order| - 1] + [order[|order| - 1]];
      assert Elements(order[..|order| - 1]) <= S;
      RestrictAll(order[..|order| - 1], S);
    }
  }

  lemma {:induction false} RestrictToNothing<T(!new)>(order: seq<T>, S: set<T>)
    requires S == {}
    ensures Restrict(order, S) == []
  {
    if order != [] {
      RestrictToNothing(order[..|order| - 1], S);
    }
  }

  lemma ElementsSize<T(!new)>(s: seq<T>)
    requires Distinct(s)
    ensures |Elements(s)| == |s|
  {
    if s != [] {
      var front, x := s[..|s| - 1], s[|s| - 1];
      ElementsSize(front);
      assert s == front + [x];
      assert x !in front;
      assert Elements(s) == Elements(front) + {x};
    }
  }

  ghost predicate SortedBy<T>(key: T -> int, s: seq<T>) {
    forall i, j :: 0 <= i < j < |s| ==> key(s[i]) <= key(s[j])
  }

  /** Where a new element goes: after everything with the same or a smaller key. */
  function SlotFor<T>(key: T -> int, s: seq<T>, x: T): (p: nat)
    ensures p <= |s|
    ensures p > 0 ==> key(s[p - 1]) <= key(x)
    ensures p < |s| ==> forall i :: p <= i < |s| ==> key(x) < key(s[i])
  {
    if s == [] || key(s[|s| - 1]) <= key(x) then |s| else SlotFor(key, s[..|s| - 1], x)
  }

  function InsertBy<T>(key: T -> int, s: seq<T>, x: T): (r: seq<T>)
    requires SortedBy(key, s)
    ensures SortedBy(key, r)
    ensures multiset(r) == multiset(s) + multiset{x}
  {
    var p := SlotFor(key, s, x);
    InsertKeepsSorted(key, s, x, p);
    InsertKeepsMembers(s, x, p);
    s[..p] + [x] + s[p..]
  }

  lemma InsertKeepsMembers<T>(s: seq<T>, x: T, p: nat)
    requires p <= |s|
    ensures multiset(s[..p] + [x] + s[p..]) == multiset(s) + multiset{x}
  {
    assert s == s[..p] + s[p..];
  }

  lemma InsertKeepsSorted<T>(key: T -> int, s: seq<T>, x: T, p: nat)
    requires SortedBy(key, s) && p <= |s|
    requires p > 0 ==> key(s[p - 1]) <= key(x)
    requires forall i :: p <= i < |s| ==> key(x) < key(s[i])
    ensures SortedBy(key, s[..p] + [x] + s[p..])
  {
  }

  /** Stable insertion of one element after another, the effect of sorting by a key. */
  function SortBy<T>(key: T -> int, s: seq<T>): (r: seq<T>)
    ensures SortedBy(key, r)
    ensures multiset(r) == multiset(s)
    ensures |r| == |s|
  {
    if s == [] then []
    else
      assert s == s[..|s| - 1] + [s[|s| - 1]];
      var r := InsertBy(key, SortBy(key, s[..|s| - 1]), s[|s| - 1]);
      assert |r| == |multiset(r)| == |multiset(s)| == |s|;
      r
  }

  lemma SortByElements<T(!new)>(key: T -> int, s: seq<T>)
    ensures Elements(SortBy(key, s)) == Elements(s)
  {
    var r := SortBy(key, s);
    forall x
      ensures x in r <==> x in s
    {
      assert x in r <==> x in multiset(r);
      assert x in s <==> x in multiset(s);
    }
  }

  lemma MultisetDistinct<T>(s: seq<T>, r: seq<T>)
    requires Distinct(s) && multiset(r) == multiset(s)
    ensures Distinct(r)
  {
    forall i, j | 0 <= i < j < |r|
      ensures r[i] != r[j]
    {
      if r[i] == r[j] {
        assert r == r[..i] + [r[i]] + r[i + 1..j] + [r[j]] + r[j + 1..];
        assert multiset(r)[r[i]] >= 2;
        DistinctCount(s, r[i]);
      }
    }
  }

  lemma {:induction false} DistinctCount<T>(s: seq<T>, x: T)
    requires Distinct(s)
    ensures multiset(s)[x] <= 1
  {
    if s != [] {
      var front := s[..|s| - 1];
      assert s == front + [s[|s| - 1]];
      DistinctCount(front, x);
      if s[|s| - 1] == x {
        assert x !in front;
        assert x !in multiset(front);
      }
    }
  }

  /** Sorting a set's members by their declared position yields the one list in declaration order. */
  lemma {:induction false} SortedByPosition<T(!new)>(order: seq<T>, key: T -> int, s: seq<T>)
    requires Distinct(order) && Distinct(s) && Elements(s) <= Elements(order)
    requires forall i :: 0 <= i < |order| ==> key(order[i]) == i
    requires SortedBy(key, s)
    ensures s == Restrict(order, Elements(s))
  {
    if order == [] {
      ElementsSize(s);
      assert Elements(s) == {};
    } else {
      var front, x := order[..|order| - 1], order[|order| - 1];
      assert order == front + [x];
      if x in s {
        LastPositionIsLast(order, key, s);
        var t := s[..|s| - 1];
        assert s == t + [x];
        assert Elements(t) == Elements(s) - {x};
        SortedByPosition(front, key, t);
        RestrictIgnores(front, Elements(t), Elements(s));
      } else {
        assert Elements(s) <= Elements(front);
        SortedByPosition(front, key, s);
      }
    }
  }

  lemma LastPositionIsLast<T(!new)>(order: seq<T>, key: T -> int, s: seq<T>)
    requires order != [] && Distinct(s) && Elements(s) <= Elements(order)
    requires forall i :: 0 <= i < |order| ==> key(order[i]) == i
    requires SortedBy(key, s) && order[|order| - 1] in s
    ensures s[|s| - 1] == order[|order| - 1]
  {
    var x, y := order[|order| - 1], s[|s| - 1];
    var i :| 0 <= i < |s| && s[i] == x;
    assert y in Elements(s);
    var j :| 0 <= j < |order| && order[j] == y;
    assert key(x) == |order| - 1 && key(y) == j;
  }

  lemma {:induction false} RestrictIgnores<T(!new)>(order: seq<T>, S: set<T>, R: set<T>)
    requires forall x :: x in order ==> (x in S <==> x in R)
    ensures Restrict(order, S) == Restrict(order, R)
  {
    if order != [] {
      assert order == order[..|order| - 1] + [order[|order| - 1]];
      RestrictIgnores(order[..|order| - 1], S, R);
    }
  }

  /** A set listed in an order the caller cannot predict. */
  method Enumerate<T(==,!new)>(S: set<T>) returns (s: seq<T>)
    ensures Distinct(s) && Elements(s) == S
  {
    s := [];
    var rest := S;
    while rest != {}
      invariant rest <= S
      invariant Distinct(s) && Elements(s) == S - rest
      decreases |rest|
    {
      var x :| x in rest;
      rest := rest - {x};
      s := s + [x];
    }
  }

  lemma DistinctAt<T>(s: seq<T>, i: nat)
    requires Distinct(s) && i < |s|
    ensures forall j :: 0 <= j < |s| && j != i ==> s[j] != s[i]
    ensures s[i] in s
  {
  }

  lemma DistinctSnoc<T(!new)>(s: seq<T>, x: T)
    requires Distinct(s) && x !in s
    ensures Distinct(s + [x]) && Elements(s + [x]) == Elements(s) + {x}
  {
  }

  lemma DistinctAppend<T(!new)>(a: seq<T>, b: seq<T>)
    requires Distinct(a) && Distinct(b) && Elements(a) !! Elements(b)
    ensures Distinct(a + b)
  {
    forall i, j | 0 <= i < j < |a + b|
      ensures (a + b)[i] != (a + b)[j]
    {
      if i < |a| <= j {
        assert a[i] in Elements(a) && b[j - |a|] in Elements(b);
      }
    }
  }

  lemma ElementsAppend<T(!new)>(a: seq<T>, b: seq<T>)
    ensures Elements(a + b) == Elements(a) + Elements(b)
  {
  }

  lemma PrefixElements<T(!new)>(s: seq<T>, i: nat)
    requires i <= |s|
    ensures Elements(s[..i]) <= Elements(s) && (i == |s| ==> Elements(s[..i]) == Elements(s))
  {
  }

  // ---------- following an order ----------

  /** The order of the elements is the given one: nothing comes behind what the order puts after it. */
  ghost predicate Follows<K>(order: seq<K>, s: seq<K>) {
    forall i, j, a, b ::
      0 <= i < j < |s| && 0 <= a < |order| && 0 <= b < |order| && order[a] == s[i] && order[b] == s[j] ==> a <= b
  }

  /** The lists one after another. */
  function Flat<K>(lists: seq<seq<K>>): seq<K> {
    if lists == [] then [] else Flat(lists[..|lists| - 1]) + lists[|lists| - 1]
  }

  lemma FlatSnoc<K>(lists: seq<seq<K>>, k: nat)
    requires k < |lists|
    ensures Flat(lists[..k + 1]) == Flat(lists[..k]) + lists[k]
  {
    assert lists[..k + 1][..k] == lists[..k];
  }

  lemma FollowsConcat<K(!new)>(order: seq<K>, s: seq<K>, more: seq<K>, t: seq<K>)
    requires Distinct(order + more) && Elements(s) <= Elements(order) && Elements(t) <= Elements(more)
    requires Follows(order, s) && Follows(more, t)
    ensures Follows(order + more, s + t)
  {
    var all, both := order + more, s + t;
    forall i, j, a, b |
      0 <= i < j < |both| && 0 <= a < |all| && 0 <= b < |all| && all[a] == both[i] && all[b] == both[j]
      ensures a <= b
    {
      OldPlace(order, s, more, t, i, a);
      OldPlace(order, s, more, t, j, b);
      if |order| <= a && |order| <= b {
        assert more[a - |order|] == t[i - |s|] && more[b - |order|] == t[j - |s|];
      }
    }
  }

  lemma OldPlace<K(!new)>(order: seq<K>, s: seq<K>, more: seq<K>, t: seq<K>, i: nat, a: nat)
    requires Distinct(order + more) && Elements(s) <= Elements(order) && Elements(t) <= Elements(more)
    requires i < |s + t| && a < |order + more| && (order + more)[a] == (s + t)[i]
    ensures a < |order| <==> i < |s|
  {
    if i < |s| {
      assert s[i] in Elements(order);
      var b :| 0 <= b < |order| && order[b] == s[i];
      assert (order + more)[b] == s[i];
    } else {
      assert t[i - |s|] in Elements(more);
      var b :| 0 <= b < |more| && more[b] == t[i - |s|];
      assert (order + more)[|order| + b] == t[i - |s|];
    }
  }

  lemma FollowsThrough<K(!new)>(order: seq<K>, picked: seq<K>, s: seq<K>)
    requires Distinct(order) && Follows(order, picked) && Follows(picked, s) && Elements(s) <= Elements(picked)
    ensures Follows(order, s)
  {
    forall i, j, a, b |
      0 <= i < j < |s| && 0 <= a < |order| && 0 <= b < |order| && order[a] == s[i] && order[b] == s[j]
      ensures a <= b
    {
      assert s[i] in Elements(picked) && s[j] in Elements(picked);
      var x :| 0 <= x < |picked| && picked[x] == s[i];
      var y :| 0 <= y < |picked| && picked[y] == s[j];
      assert x <= y;
    }
  }

  /** What stands in the first part of the order may be followed by one later element, repeated or not. */
  lemma FollowsOneMore<K(!new)>(order: seq<K>, k: nat, s: seq<K>, t: seq<K>)
    requires Distinct(order) && k < |order| && Follows(order, s) && Elements(s) <= Elements(order[..k])
    requires forall i :: 0 <= i < |t| ==> t[i] == order[k]
    ensures Follows(order, s + t) && Elements(s + t) <= Elements(order[..k + 1])
  {
    var both := s + t;
    forall i | 0 <= i < |both|
      ensures exists a :: 0 <= a <= k && order[a] == both[i] && (i >= |s| ==> a == k)
    {
      if i < |s| {
        assert s[i] in Elements(order[..k]);
        var a :| 0 <= a < k && order[..k][a] == s[i];
        assert order[a] == both[i];
      } else {
        assert order[k] == both[i];
      }
    }
    forall i, j, a, b |
      0 <= i < j < |both| && 0 <= a < |order| && 0 <= b < |order| && order[a] == both[i] && order[b] == both[j]
      ensures a <= b
    {
      if j < |s| {
        assert s[i] == both[i] && s[j] == both[j];
      }
    }
    forall x | x in Elements(both)
      ensures x in Elements(order[..k + 1])
    {
      var i :| 0 <= i < |both| && both[i] == x;
      var a :| 0 <= a <= k && order[a] == both[i];
      assert order[..k + 1][a] == x;
    }
  }

  lemma {:induction false} RestrictFollows<K(!new)>(order: seq<K>, S: set<K>)
    requires Distinct(order)
    ensures Follows(order, Restrict(order, S))
  {
    if order != [] {
      var front, x := order[..|order| - 1], order[|order| - 1];
      assert order == front + [x];
      RestrictFollows(front, S);
      FollowsConcat(front, Restrict(front, S), [x], if x in S then [x] else []);
    }
  }

  /** The list without the members of a set. */
  method Without<T(==,!new)>(s: seq<T>, S: set<T>) returns (r: seq<T>)
    requires Distinct(s)
    ensures Distinct(r) && Elements(r) == Elements(s) - S && Follows(s, r)
  {
    r := [];
    for i := 0 to |s|
      invariant Distinct(r) && Elements(r) == Elements(s[..i]) - S && Follows(s, r)
    {
      hide Follows;
      ElementsSnoc(s, i);
      if s[i] !in S {
        DistinctSnoc(r, s[i]);
        FollowsOneMore(s, i, r, [s[i]]);
        r := r + [s[i]];
      }
    }
    assert s[..|s|] == s;
  }

  // ---------- sizes of finite sets ----------

  lemma SmallerSet<T>(S: set<T>, R: set<T>, a: T)
    requires S <= R && a in R && a !in S
    ensures |S| < |R|
  {
    assert S <= R - {a};
    SubsetSize(S, R - {a});
  }

  lemma {:induction false} SubsetSize<T>(S: set<T>, R: set<T>)
    requires S <= R
    ensures |S| <= |R|
  {
    if S != {} {
      var x :| x in S;
      SubsetSize(S - {x}, R - {x});
    }
  }

  lemma FewerMembers<T>(S: set<T>, R: set<T>)
    requires S < R
    ensures |S| < |R|
  {
    var x :| x in R && x !in S;
    SmallerSet(S, R, x);
  }

  lemma NoMembers<T(!new)>(S: set<T>)
    requires forall x :: x !in S
    ensures |S| == 0
  {
  }

  lemma EmptyOrMember<T>(s: seq<T>)
    ensures s == [] || exists x :: x in s
  {
    if s != [] {
      assert s[0] in s;
    }
  }
}

/** Counting and summing, over sequences (as the application's loops do) and over sets (as
    the theorems want). Sequences are consumed from the end, to suit loops that append. */
module Counting {

  function CountIf<T>(s: seq<T>, p: T -> bool): nat {
    if s == [] then 0
    else CountIf(s[..|s| - 1], p) + if p(s[|s| - 1]) then 1 else 0
  }

  function Filter<T(!new)>(s: seq<T>, p: T -> bool): (r: seq<T>)
    ensures forall x :: x in r <==> x in s && p(x)
  {
    if s == [] then []
    else
      var last := s[|s| - 1];
      assert s == s[..|s| - 1] + [last];
      Filter(s[..|s| - 1], p) + if p(last) then [last] else []
  }

  function Sum<T>(s: seq<T>, f: T -> int): int {
    if s == [] then 0 else Sum(s[..|s| - 1], f) + f(s[|s| - 1])
  }

  /** The keys of a Python Counter in iteration order: first occurrences. */
  function Uniq<T(==,!new)>(s: seq<T>): (r: seq<T>)
    ensures forall x :: x in r <==> x in s
    ensures NoDup(r)
  {
    if s == [] then []
    else
      var last := s[|s| - 1];
      assert s == s[..|s| - 1] + [last];
      if last in s[..|s| - 1] then Uniq(s[..|s| - 1]) else Uniq(s[..|s| - 1]) + [last]
  }

  lemma TakeOneMore<T>(s: seq<T>, n: nat)
    requires 0 < n <= |s|
    ensures s[..n] == s[..n - 1] + [s[n - 1]]
  {
  }

  lemma TakeAll<T>(s: seq<T>)
    ensures s[..|s|] == s
  {
  }

  ghost predicate NoDup<T>(s: seq<T>) {
    forall i, j :: 0 <= i < j < |s| ==> s[i] != s[j]
  }

  ghost function Elements<T>(s: seq<T>): set<T> {
    set x | x in s
  }

  ghost function Where<T>(X: set<T>, p: T -> bool): set<T> {
    set x | x in X && p(x)
  }

  lemma NoDupInit<T>(s: seq<T>)
    requires s != [] && NoDup(s)
    ensures NoDup(s[..|s| - 1])
    ensures s[|s| - 1] !in s[..|s| - 1]
    ensures Elements(s) == Elements(s[..|s| - 1]) + {s[|s| - 1]}
  {
    assert s == s[..|s| - 1] + [s[|s| - 1]];
  }

  lemma NoDupConcat<T>(s: seq<T>, t: seq<T>)
    requires NoDup(s) && NoDup(t)
    requires forall x :: x in t ==> x !in s
    ensures NoDup(s + t)
  {
    forall i, j | 0 <= i < j < |s + t|
      ensures (s + t)[i] != (s + t)[j]
    {
      if i < |s| <= j {
        assert t[j - |s|] in t;
      }
    }
  }

  lemma {:induction false} ElementsSize<T>(s: seq<T>)
    requires NoDup(s)
    ensures |Elements(s)| == |s|
  {
    if s != [] {
      NoDupInit(s);
      ElementsSize(s[..|s| - 1]);
    }
  }

  lemma {:induction false} NoDupFilter<T(!new)>(s: seq<T>, p: T -> bool)
    requires NoDup(s)
    ensures NoDup(Filter(s, p))
  {
    if s != [] {
      NoDupInit(s);
      NoDupFilter(s[..|s| - 1], p);
    }
  }

  /** Counting in a duplicate-free sequence is the size of the matching set. */
  lemma {:induction false} CountIsSize<T>(s: seq<T>, p: T -> bool)
    requires NoDup(s)
    ensures CountIf(s, p) == |Where(Elements(s), p)|
  {
    if s == [] {
      assert Where(Elements(s), p) == {};
    } else {
      var rest, last := s[..|s| - 1], s[|s| - 1];
      NoDupInit(s);
      CountIsSize(rest, p);
      if p(last) {
        assert Where(Elements(s), p) == Where(Elements(rest), p) + {last};
      } else {
        assert Where(Elements(s), p) == Where(Elements(rest), p);
      }
    }
  }

  lemma {:induction false} CountSplit<T>(s: seq<T>, t: seq<T>, p: T -> bool)
    ensures CountIf(s + t, p) == CountIf(s, p) + CountIf(t, p)
  {
    if t == [] {
      assert s + t == s;
    } else {
      assert (s + t)[..|s + t| - 1] == s + t[..|t| - 1];
      CountSplit(s, t[..|t| - 1], p);
    }
  }

  lemma {:induction false} CountPositive<T>(s: seq<T>, p: T -> bool)
    ensures CountIf(s, p) > 0 <==> exists x :: x in s && p(x)
  {
    if s != [] {
      var rest, last := s[..|s| - 1], s[|s| - 1];
      assert s == rest + [last];
      CountPositive(rest, p);
    }
  }

  /** Removing one occurrence of x. */
  lemma RemoveMiddle<T>(a: seq<T>, x: T, b: seq<T>, p: T -> bool)
    ensures CountIf(a + [x] + b, p) == CountIf(a + b, p) + if p(x) then 1 else 0
  {
    CountSplit(a + [x], b, p);
    CountSplit(a, b, p);
    assert (a + [x])[..|a + [x]| - 1] == a;
  }

  lemma TakeOut<T>(t: seq<T>, x: T) returns (a: seq<T>, b: seq<T>)
    requires x in multiset(t)
    ensures t == a + [x] + b && multiset(a + b) == multiset(t) - multiset{x}
  {
    var i :| 0 <= i < |t| && t[i] == x;
    a, b := t[..i], t[i + 1..];
    assert t == a + [x] + b;
    assert multiset(t) == multiset(a + b) + multiset{x};
  }

  /** A sub-multiset counts no more than the whole. */
  lemma {:induction false} CountMonotone<T>(s: seq<T>, t: seq<T>, p: T -> bool)
    requires multiset(s) <= multiset(t)
    ensures CountIf(s, p) <= CountIf(t, p)
  {
    if s != [] {
      var rest, last := s[..|s| - 1], s[|s| - 1];
      assert s == rest + [last];
      assert multiset(rest) == multiset(s) - multiset{last};
      assert last in multiset(s) && last in multiset(t);
      var a, b := TakeOut(t, last);
      RemoveMiddle(a, last, b, p);
      CountMonotone(rest, a + b, p);
    }
  }

  lemma {:induction false} SumLe<T>(s: seq<T>, f: T -> int, g: T -> int)
    requires forall x :: x in s ==> f(x) <= g(x)
    ensures Sum(s, f) <= Sum(s, g)
  {
    if s != [] {
      assert s[|s| - 1] in s;
      SumLe(s[..|s| - 1], f, g);
    }
  }

  lemma {:induction false} SumEq<T>(s: seq<T>, f: T -> int, g: T -> int)
    requires forall x :: x in s ==> f(x) == g(x)
    ensures Sum(s, f) == Sum(s, g)
  {
    if s != [] {
      assert s[|s| - 1] in s;
      SumEq(s[..|s| - 1], f, g);
    }
  }

  /** If one sum is smaller, some term is. */
  lemma {:induction false} SumWitness<T>(s: seq<T>, f: T -> int, g: T -> int) returns (x: T)
    requires Sum(s, f) < Sum(s, g)
    ensures x in s && f(x) < g(x)
  {
    var last := s[|s| - 1];
    assert last in s;
    if f(last) < g(last) {
      x := last;
    } else {
      x := SumWitness(s[..|s| - 1], f, g);
    }
  }

  ghost function Fiber<T, K(!new)>(X: set<T>, key: T -> K, k: K): set<T> {
    set x | x in X && key(x) == k
  }

  ghost function FiberSize<T, K(!new)>(X: set<T>, key: T -> K): K -> int {
    k => |Fiber(X, key, k)|
  }

  lemma FiberOfRest<T, K(!new)>(X: set<T>, key: T -> K, last: K, keys: seq<K>)
    requires last !in keys
    ensures |X| == |Fiber(X, key, last)| + |X - Fiber(X, key, last)|
    ensures Sum(keys, FiberSize(X, key)) == Sum(keys, FiberSize(X - Fiber(X, key, last), key))
  {
    var here := Fiber(X, key, last);
    assert X == here + (X - here);
    forall k | k in keys
      ensures FiberSize(X, key)(k) == FiberSize(X - here, key)(k)
    {
      assert Fiber(X, key, k) == Fiber(X - here, key, k);
    }
    SumEq(keys, FiberSize(X, key), FiberSize(X - here, key));
  }

  /** A set is the disjoint union of its fibers over any duplicate-free key list that
      covers its keys. */
  lemma {:induction false} SumOfFibers<T, K(!new)>(X: set<T>, key: T -> K, keys: seq<K>)
    requires NoDup(keys)
    requires forall x :: x in X ==> key(x) in keys
    ensures Sum(keys, FiberSize(X, key)) == |X|
  {
    if keys == [] {
      assert X == {};
    } else {
      var rest, last := keys[..|keys| - 1], keys[|keys| - 1];
      NoDupInit(keys);
      assert keys == rest + [last];
      FiberOfRest(X, key, last, rest);
      SumOfFibers(X - Fiber(X, key, last), key, rest);
    }
  }

  function SumReal<T>(s: seq<T>, f: T -> real): real {
    if s == [] then 0.0 else SumReal(s[..|s| - 1], f) + f(s[|s| - 1])
  }

  lemma {:induction false} SumRealSplit<T>(s: seq<T>, t: seq<T>, f: T -> real)
    ensures SumReal(s + t, f) == SumReal(s, f) + SumReal(t, f)
  {
    if t == [] {
      assert s + t == s;
    } else {
      assert (s + t)[..|s + t| - 1] == s + t[..|t| - 1];
      SumRealSplit(s, t[..|t| - 1], f);
    }
  }

  lemma NoDupRemove<T>(a: seq<T>, x: T, b: seq<T>)
    requires NoDup(a + [x] + b)
    ensures NoDup(a + b)
    ensures Elements(a + b) == Elements(a + [x] + b) - {x}
  {
    var s := a + [x] + b;
    forall i, j | 0 <= i < j < |a + b|
      ensures (a + b)[i] != (a + b)[j]
    {
      var i', j' := if i < |a| then i else i + 1, if j < |a| then j else j + 1;
      assert s[i'] == (a + b)[i] && s[j'] == (a + b)[j];
    }
    forall y | y in a + b ensures y in s && y != x {
      var i :| 0 <= i < |a + b| && (a + b)[i] == y;
      var i' := if i < |a| then i else i + 1;
      assert s[i'] == y && s[|a|] == x;
    }
  }

  /** A sum does not depend on the order of the terms. */
  lemma {:induction false} SumRealReorder<T>(s: seq<T>, t: seq<T>, f: T -> real)
    requires NoDup(s) && NoDup(t) && Elements(s) == Elements(t)
    ensures SumReal(s, f) == SumReal(t, f)
  {
    if s == [] {
      ElementsSize(s);
      ElementsSize(t);
    } else {
      var rest, last := s[..|s| - 1], s[|s| - 1];
      NoDupInit(s);
      assert last in Elements(t);
      var i :| 0 <= i < |t| && t[i] == last;
      var a, b := t[..i], t[i + 1..];
      assert t == a + [last] + b;
      NoDupRemove(a, last, b);
      SumRealReorder(rest, a + b, f);
      SumRealSplit(a + [last], b, f);
      SumRealSplit(a, b, f);
      assert (a + [last])[..|a|] == a;
    }
  }
}

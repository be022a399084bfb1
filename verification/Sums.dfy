/**
 Sums over finite sets. The value of a sum does not depend on the order in which the
 elements are visited, which is what lets a loop over a hash map be specified by one.
 */
module Sums {

  ghost function SumOver<K>(s: set<K>, f: K -> int): int {
    if s == {} then 0 else
    var k :| k in s;
    f(k) + SumOver(s - {k}, f)
  }

  /** The indices below `n`. */
  ghost function Below(n: nat): (s: set<int>)
    ensures forall i :: i in s <==> 0 <= i < n
  {
    if n == 0 then {} else Below(n - 1) + {n - 1}
  }

  /** Any element may be visited first. */
  lemma {:induction false} SumRemove<K>(s: set<K>, f: K -> int, k: K)
    requires k in s
    ensures SumOver(s, f) == f(k) + SumOver(s - {k}, f)
  {
    var first :| first in s && SumOver(s, f) == f(first) + SumOver(s - {first}, f);
    if first != k {
      SumRemove(s - {first}, f, k);
      SumRemove(s - {k}, f, first);
      assert s - {first} - {k} == s - {k} - {first};
    }
  }

  lemma SumAdd<K>(s: set<K>, f: K -> int, k: K)
    requires k !in s
    ensures SumOver(s + {k}, f) == SumOver(s, f) + f(k)
  {
    SumRemove(s + {k}, f, k);
    assert s + {k} - {k} == s;
  }

  lemma {:induction false} SumExt<K>(s: set<K>, f: K -> int, g: K -> int)
    requires forall k | k in s :: f(k) == g(k)
    ensures SumOver(s, f) == SumOver(s, g)
  {
    if s != {} {
      var k :| k in s;
      SumRemove(s, f, k);
      SumRemove(s, g, k);
      SumExt(s - {k}, f, g);
    }
  }

  lemma {:induction false} SumPlus<K>(s: set<K>, f: K -> int, g: K -> int, h: K -> int)
    requires forall k | k in s :: h(k) == f(k) + g(k)
    ensures SumOver(s, h) == SumOver(s, f) + SumOver(s, g)
  {
    if s != {} {
      var k :| k in s;
      SumRemove(s, f, k);
      SumRemove(s, g, k);
      SumRemove(s, h, k);
      SumPlus(s - {k}, f, g, h);
    }
  }

  lemma {:induction false} SumUnion<K>(s: set<K>, t: set<K>, f: K -> int)
    requires s !! t
    ensures SumOver(s + t, f) == SumOver(s, f) + SumOver(t, f)
  {
    if t == {} {
      assert s + t == s;
    } else {
      var k :| k in t;
      SumRemove(s + t, f, k);
      SumRemove(t, f, k);
      assert s + t - {k} == s + (t - {k});
      SumUnion(s, t - {k}, f);
    }
  }

  lemma {:induction false} SumNonNegative<K>(s: set<K>, f: K -> int)
    requires forall k | k in s :: 0 <= f(k)
    ensures 0 <= SumOver(s, f)
  {
    if s != {} {
      var k :| k in s;
      SumRemove(s, f, k);
      SumNonNegative(s - {k}, f);
    }
  }

  lemma {:induction false} SumBelow<K>(s: set<K>, f: K -> int, g: K -> int)
    requires forall k | k in s :: f(k) <= g(k)
    ensures SumOver(s, f) <= SumOver(s, g)
  {
    if s != {} {
      var k :| k in s;
      SumRemove(s, f, k);
      SumRemove(s, g, k);
      SumBelow(s - {k}, f, g);
    }
  }

  lemma {:induction false} SumZero<K>(s: set<K>, f: K -> int)
    requires forall k | k in s :: f(k) == 0
    ensures SumOver(s, f) == 0
  {
    if s != {} {
      var k :| k in s;
      SumRemove(s, f, k);
      SumZero(s - {k}, f);
    }
  }

  /** A sum of non-negative terms is at least the sum over any part of them. */
  lemma SumSubset<K>(part: set<K>, s: set<K>, f: K -> int)
    requires part <= s
    requires forall k | k in s :: 0 <= f(k)
    ensures 0 <= SumOver(part, f) <= SumOver(s, f)
  {
    SumUnion(part, s - part, f);
    assert part + (s - part) == s;
    SumNonNegative(part, f);
    SumNonNegative(s - part, f);
  }

  lemma SumMember<K>(s: set<K>, f: K -> int, k: K)
    requires k in s
    requires forall j | j in s :: 0 <= f(j)
    ensures 0 <= f(k) <= SumOver(s, f)
  {
    SumRemove(s, f, k);
    SumNonNegative(s - {k}, f);
  }

  /** The terms of `f` at the members of `part`, and zero elsewhere. */
  ghost function Restricted<K>(part: set<K>, f: K -> int): K -> int {
    k => if k in part then f(k) else 0
  }

  /** Summing a part is summing everything with the other terms struck out. */
  lemma SumRestricted<K>(part: set<K>, s: set<K>, f: K -> int)
    requires part <= s
    ensures SumOver(s, Restricted(part, f)) == SumOver(part, f)
  {
    SumUnion(part, s - part, Restricted(part, f));
    assert part + (s - part) == s;
    SumExt(part, Restricted(part, f), f);
    SumZero(s - part, Restricted(part, f));
  }

  lemma {:induction false} SumOnes<K>(s: set<K>)
    ensures SumOver(s, Ones()) == |s|
  {
    if s != {} {
      var k :| k in s;
      SumRemove(s, Ones(), k);
      SumOnes(s - {k});
    }
  }

  ghost function Ones<K>(): K -> int {
    _ => 1
  }

  /** Visiting one more of `all`: the running total takes in its term and stays within the whole. */
  lemma VisitNext<K>(all: set<K>, done: set<K>, a: K, f: K -> int)
    requires done <= all && a in all && a !in done
    requires forall k | k in all :: 0 <= f(k)
    ensures SumOver(done + {a}, f) == SumOver(done, f) + f(a) <= SumOver(all, f)
    ensures 0 <= SumOver(done, f)
  {
    SumAdd(done, f, a);
    SumSubset(done + {a}, all, f);
    SumNonNegative(done, f);
  }

  ghost function Gathered<K, C>(classes: set<C>, members: C -> set<K>): set<K> {
    set c, k | c in classes && k in members(c) :: k
  }

  /** Summing class by class is summing over everything, when the classes do not overlap. */
  lemma {:induction false} SumByClass<K, C>(classes: set<C>, members: C -> set<K>, f: K -> int, g: C -> int)
    requires forall c | c in classes :: g(c) == SumOver(members(c), f)
    requires forall c, d | c in classes && d in classes && c != d :: members(c) !! members(d)
    ensures SumOver(classes, g) == SumOver(Gathered(classes, members), f)
  {
    if classes == {} {
      assert Gathered(classes, members) == {};
    } else {
      var c :| c in classes;
      var rest := classes - {c};
      SumRemove(classes, g, c);
      SumByClass(rest, members, f, g);
      assert Gathered(classes, members) == Gathered(rest, members) + members(c);
      SumUnion(Gathered(rest, members), members(c), f);
    }
  }

  /** A sum over one more position, when the terms before it do not change. */
  lemma NextPosition(n: nat, f: int -> int, g: int -> int)
    requires forall i | 0 <= i < n :: f(i) == g(i)
    ensures SumOver(Below(n + 1), g) == SumOver(Below(n), f) + g(n)
  {
    SumExt(Below(n), f, g);
    SumAdd(Below(n), g, n);
  }
}

/** Datatypes and counting functions shared by the modules of the model. */
module Prelude {

  datatype Option<+T> = None | Some(value: T) {
    function GetOr(default: T): T {
      match this
      case Some(v) => v
      case None => default
    }
  }

  datatype Result<+T, +E> = Ok(value: T) | Err(error: E)

  /** How many elements satisfy the predicate. */
  function Count<T>(s: seq<T>, p: T -> bool): nat {
    if s == [] then 0 else Count(s[..|s|-1], p) + if p(s[|s|-1]) then 1 else 0
  }

  function Sum<T>(s: seq<T>, f: T -> int): int {
    if s == [] then 0 else Sum(s[..|s|-1], f) + f(s[|s|-1])
  }

  function Apply<T, U>(f: T -> U, s: seq<T>): (r: seq<U>)
    ensures |r| == |s| && forall i :: 0 <= i < |s| ==> r[i] == f(s[i])
  {
    seq(|s|, i requires 0 <= i < |s| => f(s[i]))
  }

  lemma CountAppend<T>(s: seq<T>, x: T, p: T -> bool)
    ensures Count(s + [x], p) == Count(s, p) + if p(x) then 1 else 0
  {
  }

  lemma SumAppend<T>(s: seq<T>, x: T, f: T -> int)
    ensures Sum(s + [x], f) == Sum(s, f) + f(x)
  {
  }

  /** Elementwise, in either kind of sequence. */
  lemma {:induction false} CountAgrees<T, U>(s: seq<T>, p: T -> bool, t: seq<U>, q: U -> bool)
    requires |s| == |t| && forall i :: 0 <= i < |s| ==> p(s[i]) == q(t[i])
    ensures Count(s, p) == Count(t, q)
  {
    if s != [] {
      CountAgrees(s[..|s|-1], p, t[..|t|-1], q);
    }
  }

  lemma {:induction false} SumAgrees<T, U>(s: seq<T>, f: T -> int, t: seq<U>, g: U -> int)
    requires |s| == |t| && forall i :: 0 <= i < |s| ==> f(s[i]) == g(t[i])
    ensures Sum(s, f) == Sum(t, g)
  {
    if s != [] {
      SumAgrees(s[..|s|-1], f, t[..|t|-1], g);
    }
  }

  /** Fewer elements satisfy the stronger predicate, strictly when one element tells them apart. */
  lemma {:induction false} CountImplied<T>(s: seq<T>, p: T -> bool, q: T -> bool)
    requires forall i :: 0 <= i < |s| && p(s[i]) ==> q(s[i])
    ensures Count(s, p) <= Count(s, q)
    ensures (exists i :: 0 <= i < |s| && q(s[i]) && !p(s[i])) <==> Count(s, p) < Count(s, q)
  {
    if s != [] {
      var front := s[..|s|-1];
      CountImplied(front, p, q);
      if i :| 0 <= i < |s| && q(s[i]) && !p(s[i]) && i < |s| - 1 {
        assert q(front[i]) && !p(front[i]);
      }
      if i :| 0 <= i < |front| && q(front[i]) && !p(front[i]) {
        assert q(s[i]) && !p(s[i]);
      }
    }
  }

  lemma {:induction false} CountAll<T>(s: seq<T>, p: T -> bool)
    ensures Count(s, p) <= |s|
    ensures Count(s, p) == |s| <==> forall i :: 0 <= i < |s| ==> p(s[i])
    ensures Count(s, p) > 0 <==> exists i :: 0 <= i < |s| && p(s[i])
  {
    if s != [] {
      var front := s[..|s|-1];
      CountAll(front, p);
      assert forall i :: 0 <= i < |front| ==> front[i] == s[i];
      if i :| 0 <= i < |s| && p(s[i]) && i < |s| - 1 {
        assert p(front[i]);
      }
    }
  }

  /** Two disjoint classes count together. */
  lemma {:induction false} CountSplit<T>(s: seq<T>, p: T -> bool, q: T -> bool, r: T -> bool)
    requires forall i :: 0 <= i < |s| ==> r(s[i]) == (p(s[i]) || q(s[i])) && !(p(s[i]) && q(s[i]))
    ensures Count(s, r) == Count(s, p) + Count(s, q)
  {
    if s != [] {
      CountSplit(s[..|s|-1], p, q, r);
    }
  }

  predicate Distinct<T(==)>(ids: seq<T>) { forall i, j :: 0 <= i < j < |ids| ==> ids[i] != ids[j] }

  lemma {:induction false} SumConcat<T>(a: seq<T>, b: seq<T>, f: T -> int)
    ensures Sum(a + b, f) == Sum(a, f) + Sum(b, f)
  {
    if b == [] {
      assert a + b == a;
    } else {
      var n := |b| - 1;
      SumConcat(a, b[..n], f);
      assert a + b == (a + b[..n]) + [b[n]];
      SumAppend(a + b[..n], b[n], f);
    }
  }

  lemma SumWithout<T>(ids: seq<T>, p: nat, f: T -> int)
    requires p < |ids|
    ensures Sum(ids, f) == Sum(ids[..p] + ids[p+1..], f) + f(ids[p])
  {
    hide Sum;
    var before, after := ids[..p], ids[p+1..];
    assert ids == (before + [ids[p]]) + after;
    SumConcat(before, after, f);
    SumConcat(before + [ids[p]], after, f);
    SumAppend(before, ids[p], f);
  }

  /** What is left of a list of distinct ids without one of them. */
  lemma MembersWithout<T(!new)>(ids: seq<T>, p: nat)
    requires Distinct(ids) && p < |ids|
    ensures var rest := ids[..p] + ids[p+1..];
      Distinct(rest) && forall id :: id in rest <==> id in ids && id != ids[p]
  {
    var rest := ids[..p] + ids[p+1..];
    forall id | id in ids && id != ids[p] ensures id in rest {
      var i :| 0 <= i < |ids| && ids[i] == id;
      assert rest[if i < p then i else i - 1] == id;
    }
  }

  /** Summing over a list that holds each of the keys once, and nothing else that weighs. */
  lemma {:induction false} SumOverKeys<T(!new)>(ids: seq<T>, keys: seq<T>, f: T -> int)
    requires Distinct(ids) && Distinct(keys)
    requires forall k :: k in keys ==> k in ids
    requires forall id :: id in ids && id !in keys ==> f(id) == 0
    ensures Sum(ids, f) == Sum(keys, f)
    decreases |keys|
  {
    if keys == [] {
      NothingWeighs(ids, f);
    } else {
      var n := |keys| - 1;
      assert keys[n] in keys;
      var p :| 0 <= p < |ids| && ids[p] == keys[n];
      MembersWithout(ids, p);
      MembersWithout(keys, n);
      assert keys[..n] + keys[n+1..] == keys[..n];
      hide Distinct, Sum;
      SumOverKeys(ids[..p] + ids[p+1..], keys[..n], f);
      SumWithout(ids, p, f);
      SumWithout(keys, n, f);
    }
  }

  lemma {:induction false} NothingWeighs<T(!new)>(ids: seq<T>, f: T -> int)
    requires forall id :: id in ids ==> f(id) == 0
    ensures Sum(ids, f) == 0
  {
    if ids != [] {
      NothingWeighs(ids[..|ids|-1], f);
      assert ids[|ids|-1] in ids;
    }
  }

  lemma DistinctConcat<T>(a: seq<T>, b: seq<T>)
    requires Distinct(a) && Distinct(b) && forall i :: 0 <= i < |b| ==> b[i] !in a
    ensures Distinct(a + b)
  {
  }

  /** No two items under one key. */
  predicate DistinctKeys<K(==), V>(items: seq<(K, V)>) {
    forall i, j :: 0 <= i < j < |items| ==> items[i].0 != items[j].0
  }

  /** The elements that satisfy the predicate, in order. */
  function Filter<T>(s: seq<T>, p: T -> bool): seq<T> {
    if s == [] then [] else Filter(s[..|s|-1], p) + if p(s[|s|-1]) then [s[|s|-1]] else []
  }

  lemma FilterStep<T>(s: seq<T>, x: T, p: T -> bool)
    ensures Filter([], p) == [] && Filter(s + [x], p) == Filter(s, p) + if p(x) then [x] else []
  {
    assert (s + [x])[..|s|] == s;
  }

  lemma {:induction false} FilterMembers<T>(s: seq<T>, p: T -> bool, x: T)
    ensures x in Filter(s, p) <==> x in s && p(x)
  {
    if s != [] {
      var n := |s| - 1;
      FilterMembers(s[..n], p, x);
      assert s == s[..n] + [s[n]];
    }
  }

  lemma {:induction false} FilterAll<T>(s: seq<T>, p: T -> bool)
    requires forall i :: 0 <= i < |s| ==> p(s[i])
    ensures Filter(s, p) == s
  {
    if s != [] {
      var n := |s| - 1;
      FilterAll(s[..n], p);
      assert s == s[..n] + [s[n]];
    }
  }

  function Min(a: real, b: real): real { if a <= b then a else b }

  function Max(a: real, b: real): real { if a >= b then a else b }

  lemma MultisetWithout<T>(s: seq<T>, p: nat)
    requires p < |s|
    ensures multiset(s[..p] + s[p+1..]) == multiset(s) - multiset{s[p]}
  {
    assert s == s[..p] + [s[p]] + s[p+1..];
  }

  /** Summing does not depend on the order. */
  lemma {:induction false} SumOfSame<T>(a: seq<T>, b: seq<T>, f: T -> int)
    requires multiset(a) == multiset(b)
    ensures Sum(a, f) == Sum(b, f)
    decreases |a|
  {
    hide Sum;
    assert |a| == |multiset(a)| == |multiset(b)| == |b|;
    if a == [] {
      assert b == [];
    } else {
      var n := |a| - 1;
      assert a[n] in multiset(a);
      assert a[n] in b;
      var p :| 0 <= p < |b| && b[p] == a[n];
      SumWithout(a, n, f);
      SumWithout(b, p, f);
      MultisetWithout(a, n);
      MultisetWithout(b, p);
      assert a[..n] + a[n+1..] == a[..n];
      SumOfSame(a[..n], b[..p] + b[p+1..], f);
    }
  }

  lemma SameMembers<T(!new)>(a: seq<T>, b: seq<T>)
    requires multiset(a) == multiset(b)
    ensures |a| == |b| && forall x :: x in a <==> x in b
  {
    assert |multiset(a)| == |a| && |multiset(b)| == |b|;
    forall x ensures x in a <==> x in b {
      assert x in multiset(a) <==> x in multiset(b);
    }
  }

  lemma DistinctMembers<T(!new)>(a: seq<T>, b: seq<T>)
    requires multiset(a) == multiset(b) && Distinct(a)
    ensures Distinct(b)
  {
    forall i, j | 0 <= i < j < |b| ensures b[i] != b[j] {
      if b[i] == b[j] {
        assert b == b[..i] + [b[i]] + b[i+1..j] + [b[j]] + b[j+1..];
        assert multiset(b)[b[i]] >= 2;
        OnceInDistinct(a, b[i]);
      }
    }
  }

  lemma {:induction false} OnceInDistinct<T(!new)>(s: seq<T>, x: T)
    requires Distinct(s)
    ensures multiset(s)[x] <= 1
  {
    if s != [] {
      var n := |s| - 1;
      OnceInDistinct(s[..n], x);
      assert s == s[..n] + [s[n]];
      assert s[n] !in s[..n];
    }
  }
}

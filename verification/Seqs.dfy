/** Facts about sequences and their multisets. */
module Seqs {

  /** Taking one copy of `x` out of two permutations leaves permutations. */
  lemma RemoveSame<T>(a: seq<T>, b: seq<T>, i: nat, j: nat)
    requires i < |a| && j < |b| && a[i] == b[j] && multiset(a) == multiset(b)
    ensures multiset(a[..i] + a[i + 1..]) == multiset(b[..j] + b[j + 1..])
  {
    WithoutOne(a, i);
    WithoutOne(b, j);
  }

  lemma WithoutOne<T>(a: seq<T>, i: nat)
    requires i < |a|
    ensures multiset(a[..i] + a[i + 1..]) == multiset(a) - multiset{a[i]}
  {
    assert a == a[..i] + ([a[i]] + a[i + 1..]);
  }

  lemma RemoveFirst<T>(a: seq<T>, b: seq<T>)
    requires a != [] && b != [] && a[0] == b[0] && multiset(a) == multiset(b)
    ensures multiset(a[1..]) == multiset(b[1..])
  {
    RemoveSame(a, b, 0, 0);
    assert a[..0] + a[1..] == a[1..] && b[..0] + b[1..] == b[1..];
  }

  lemma SameEmpty<T>(a: seq<T>, b: seq<T>)
    requires multiset(a) == multiset(b)
    ensures a == [] <==> b == []
  {
    assert a != [] ==> a[0] in multiset(b);
    assert b != [] ==> b[0] in multiset(a);
  }

  /** An element of one permutation sits somewhere in the other. */
  lemma FindIn<T>(a: seq<T>, i: nat, b: seq<T>) returns (j: nat)
    requires i < |a| && multiset(a) == multiset(b)
    ensures j < |b| && b[j] == a[i]
  {
    assert a[i] in multiset(b);
    j :| 0 <= j < |b| && b[j] == a[i];
  }

  ghost predicate Distinct<T>(s: seq<T>) {
    forall i, j :: 0 <= i < j < |s| ==> s[i] != s[j]
  }

  lemma {:induction false} DistinctCount<T>(s: seq<T>, x: T)
    requires Distinct(s)
    ensures multiset(s)[x] == if x in s then 1 else 0
  {
    if s != [] {
      var k := |s| - 1;
      DistinctCount(s[..k], x);
      assert s == s[..k] + [s[k]];
    }
  }

  /** Lists without repeats that have the same members are permutations. */
  lemma {:induction false} SameMembersPermute<T>(a: seq<T>, b: seq<T>)
    requires Distinct(a) && Distinct(b) && forall x :: x in a <==> x in b
    ensures multiset(a) == multiset(b)
  {
    forall x ensures multiset(a)[x] == multiset(b)[x] {
      DistinctCount(a, x);
      DistinctCount(b, x);
    }
  }

  /** `s.flatMap(f)` */
  function FlatMap<T, U>(s: seq<T>, f: T -> seq<U>): seq<U> {
    if s == [] then [] else FlatMap(s[..|s| - 1], f) + f(s[|s| - 1])
  }

  lemma {:induction false} FlatMapJoin<T, U>(a: seq<T>, b: seq<T>, f: T -> seq<U>)
    ensures FlatMap(a + b, f) == FlatMap(a, f) + FlatMap(b, f)
  {
    if b == [] {
      assert a + b == a;
    } else {
      var k := |b| - 1;
      assert (a + b)[..|a + b| - 1] == a + b[..k];
      FlatMapJoin(a, b[..k], f);
    }
  }

  lemma {:induction false} FlatMapAround<T, U>(before: seq<T>, x: T, after: seq<T>, f: T -> seq<U>)
    ensures multiset(FlatMap(before + ([x] + after), f)) == multiset(FlatMap(before + after, f)) + multiset(f(x))
  {
    FlatMapJoin(before, [x] + after, f);
    FlatMapJoin([x], after, f);
    FlatMapJoin(before, after, f);
    assert [x][..0] == [];
    assert FlatMap([x], f) == f(x);
  }

  /** The order of the list decides no more than the order of the result. */
  lemma {:induction false} FlatMapPermute<T, U>(a: seq<T>, b: seq<T>, f: T -> seq<U>)
    requires multiset(a) == multiset(b)
    ensures multiset(FlatMap(a, f)) == multiset(FlatMap(b, f))
    decreases |a|
  {
    SameEmpty(a, b);
    if a != [] {
      var k := 0;
      var i := FindIn(a, k, b);
      assert a == a[..k] + ([a[k]] + a[k + 1..]) && b == b[..i] + ([b[i]] + b[i + 1..]);
      FlatMapAround(a[..k], a[k], a[k + 1..], f);
      FlatMapAround(b[..i], b[i], b[i + 1..], f);
      RemoveSame(a, b, k, i);
      FlatMapPermute(a[..k] + a[k + 1..], b[..i] + b[i + 1..], f);
    }
  }

  lemma {:induction false} FlatMapAgree<T, U>(s: seq<T>, f: T -> seq<U>, g: T -> seq<U>)
    requires forall i :: 0 <= i < |s| ==> f(s[i]) == g(s[i])
    ensures FlatMap(s, f) == FlatMap(s, g)
  {
    if s != [] {
      FlatMapAgree(s[..|s| - 1], f, g);
    }
  }
}

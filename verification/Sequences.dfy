/** Mapping, summing and searching sequences. */
module Sequences {
  import opened Outcomes

  lemma DropFirst<T>(a: seq<T>)
    requires a != []
    ensures multiset(a[1..]) == multiset(a) - multiset{a[0]}
  {
    assert a == [a[0]] + a[1..];
  }

  lemma RemoveAt<T>(b: seq<T>, j: nat)
    requires j < |b|
    ensures multiset(b[..j] + b[j + 1..]) == multiset(b) - multiset{b[j]}
  {
    assert b == b[..j] + ([b[j]] + b[j + 1..]);
  }

  // ---- mapping ----------------------------------------------------------------------------

  function Mapped<A, B>(s: seq<A>, f: A -> B): (r: seq<B>)
    ensures |r| == |s|
    ensures forall i :: 0 <= i < |s| ==> r[i] == f(s[i])
  {
    seq(|s|, i requires 0 <= i < |s| => f(s[i]))
  }

  lemma MappedWithout<A, B>(s: seq<A>, f: A -> B, j: nat)
    requires j < |s|
    ensures multiset(Mapped(s, f)) == multiset(Mapped(s[..j] + s[j + 1..], f)) + multiset{f(s[j])}
  {
    var m := Mapped(s, f);
    assert Mapped(s[..j] + s[j + 1..], f) == m[..j] + m[j + 1..];
    RemoveAt(m, j);
  }

  lemma MappedFirst<A, B>(s: seq<A>, f: A -> B)
    requires s != []
    ensures multiset(Mapped(s, f)) == multiset(Mapped(s[1..], f)) + multiset{f(s[0])}
  {
    assert Mapped(s, f) == [f(s[0])] + Mapped(s[1..], f);
  }

  /** Images of two arrangements of the same elements hold the same elements. */
  lemma {:induction false} MappedIgnoresOrder<A, B>(a: seq<A>, b: seq<A>, f: A -> B)
    requires multiset(a) == multiset(b)
    ensures multiset(Mapped(a, f)) == multiset(Mapped(b, f))
  {
    hide Mapped;
    if a == [] {
      assert |multiset(b)| == |b|;
    } else {
      assert a[0] in multiset(b);
      var j :| 0 <= j < |b| && b[j] == a[0];
      DropFirst(a);
      RemoveAt(b, j);
      MappedIgnoresOrder(a[1..], b[..j] + b[j + 1..], f);
      MappedWithout(b, f, j);
      MappedFirst(a, f);
    }
  }

  // ---- sums ---------------------------------------------------------------------------------

  function Sum<T>(s: seq<T>, size: T -> nat): nat
  {
    if s == [] then 0 else Sum(s[..|s| - 1], size) + size(s[|s| - 1])
  }

  lemma {:induction false} SumGrows<T>(s: seq<T>, size: T -> nat, n: nat)
    requires n <= |s|
    ensures Sum(s[..n], size) <= Sum(s, size)
    decreases |s| - n
  {
    if n == |s| {
      assert s[..n] == s;
    } else {
      assert s[..n + 1][..n] == s[..n];
      SumGrows(s, size, n + 1);
    }
  }

  lemma SumStep<T>(s: seq<T>, size: T -> nat, i: nat)
    requires i < |s|
    ensures Sum(s[..i + 1], size) == Sum(s[..i], size) + size(s[i]) <= Sum(s, size)
  {
    assert s[..i + 1][..i] == s[..i];
    SumGrows(s, size, i + 1);
  }

  lemma {:induction false} SumWithout<T>(s: seq<T>, size: T -> nat, j: nat)
    requires j < |s|
    ensures Sum(s, size) == Sum(s[..j] + s[j + 1..], size) + size(s[j])
  {
    var n := |s| - 1;
    var rest := s[..j] + s[j + 1..];
    if j == n {
      assert rest == s[..n];
    } else {
      SumWithout(s[..n], size, j);
      assert s[..n][..j] + s[..n][j + 1..] == rest[..|rest| - 1];
    }
  }

  /** Two arrangements of the same elements have the same sum. */
  lemma {:induction false} SumIgnoresOrder<T>(a: seq<T>, b: seq<T>, size: T -> nat)
    requires multiset(a) == multiset(b)
    ensures Sum(a, size) == Sum(b, size)
  {
    if a == [] {
      assert |multiset(b)| == |b|;
    } else {
      assert a[0] in multiset(b);
      var j :| 0 <= j < |b| && b[j] == a[0];
      DropFirst(a);
      RemoveAt(b, j);
      SumIgnoresOrder(a[1..], b[..j] + b[j + 1..], size);
      SumWithout(b, size, j);
      SumWithout(a, size, 0);
      assert a[..0] + a[1..] == a[1..];
    }
  }

  // ---- searching --------------------------------------------------------------------------------

  /** `find_if`: the first place where `p` holds. */
  function Find<T>(s: seq<T>, p: T -> bool): (r: Option<nat>)
    ensures r.Some? ==> r.value < |s| && p(s[r.value]) && forall i :: 0 <= i < r.value ==> !p(s[i])
    ensures r.None? ==> forall i :: 0 <= i < |s| ==> !p(s[i])
  {
    if s == [] then None
    else if p(s[0]) then Some(0)
    else match Find(s[1..], p)
      case None => None
      case Some(i) => Some(i + 1)
  }
}

/** Total orders, lexicographic order and stable sorting. */
module Order {
  import opened Sequences

  ghost predicate Reflexive<T(!new)>(leq: (T, T) -> bool) {
    forall x :: leq(x, x)
  }

  ghost predicate Total<T(!new)>(leq: (T, T) -> bool) {
    forall x, y :: leq(x, y) || leq(y, x)
  }

  ghost predicate Transitive<T(!new)>(leq: (T, T) -> bool) {
    forall x, y, z :: leq(x, y) && leq(y, z) ==> leq(x, z)
  }

  ghost predicate Antisymmetric<T(!new)>(leq: (T, T) -> bool) {
    forall x, y :: leq(x, y) && leq(y, x) ==> x == y
  }

  /** What `sort_by` demands of its comparison. */
  ghost predicate Preorder<T(!new)>(leq: (T, T) -> bool) {
    Reflexive(leq) && Total(leq) && Transitive(leq)
  }

  /** What `Ord` promises. */
  ghost predicate TotalOrder<T(!new)>(leq: (T, T) -> bool) {
    Preorder(leq) && Antisymmetric(leq)
  }

  // ---- lexicographic order ----------------------------------------------------

  predicate LexLeq<T(==)>(leq: (T, T) -> bool, a: seq<T>, b: seq<T>)
  {
    if a == [] then true
    else if b == [] then false
    else if a[0] == b[0] then LexLeq(leq, a[1..], b[1..])
    else leq(a[0], b[0])
  }

  lemma {:induction false} LexReflexive<T>(leq: (T, T) -> bool, a: seq<T>)
    ensures LexLeq(leq, a, a)
  {
    if a != [] { LexReflexive(leq, a[1..]); }
  }

  lemma {:induction false} LexTotal<T(!new)>(leq: (T, T) -> bool, a: seq<T>, b: seq<T>)
    requires Total(leq)
    ensures LexLeq(leq, a, b) || LexLeq(leq, b, a)
  {
    if a != [] && b != [] && a[0] == b[0] { LexTotal(leq, a[1..], b[1..]); }
  }

  lemma {:induction false} LexAntisymmetric<T(!new)>(leq: (T, T) -> bool, a: seq<T>, b: seq<T>)
    requires Antisymmetric(leq)
    requires LexLeq(leq, a, b) && LexLeq(leq, b, a)
    ensures a == b
  {
    if a != [] && b != [] {
      assert a[0] == b[0];
      LexAntisymmetric(leq, a[1..], b[1..]);
      assert a == [a[0]] + a[1..] && b == [b[0]] + b[1..];
    }
  }

  lemma {:induction false} LexTransitive<T(!new)>(leq: (T, T) -> bool, a: seq<T>, b: seq<T>, c: seq<T>)
    requires TotalOrder(leq)
    requires LexLeq(leq, a, b) && LexLeq(leq, b, c)
    ensures LexLeq(leq, a, c)
  {
    if a != [] && b != [] && c != [] && a[0] == b[0] == c[0] {
      LexTransitive(leq, a[1..], b[1..], c[1..]);
    }
  }

  /** Lexicographic order over a total order is a total order. */
  lemma LexTotalOrder<T(!new)>(leq: (T, T) -> bool, lex: (seq<T>, seq<T>) -> bool)
    requires TotalOrder(leq)
    requires forall a, b :: lex(a, b) == LexLeq(leq, a, b)
    ensures TotalOrder(lex)
  {
    forall a, b ensures lex(a, a) && (lex(a, b) || lex(b, a)) {
      LexReflexive(leq, a);
      LexTotal(leq, a, b);
    }
    forall a, b | lex(a, b) && lex(b, a) ensures a == b {
      LexAntisymmetric(leq, a, b);
    }
    forall a, b, c | lex(a, b) && lex(b, c) ensures lex(a, c) {
      LexTransitive(leq, a, b, c);
    }
  }

  /** A string sorts before everything that extends it. */
  lemma {:induction false} LexPrefix<T>(leq: (T, T) -> bool, a: seq<T>, b: seq<T>)
    requires a <= b
    ensures LexLeq(leq, a, b)
  {
    if a != [] { LexPrefix(leq, a[1..], b[1..]); }
  }

  /** Whatever sorts between a string and one of its extensions is itself an extension. */
  lemma {:induction false} LexBetween<T(!new)>(leq: (T, T) -> bool, a: seq<T>, x: seq<T>, y: seq<T>)
    requires TotalOrder(leq)
    requires a <= y
    requires LexLeq(leq, a, x) && LexLeq(leq, x, y)
    ensures a <= x
  {
    if a != [] {
      assert a[0] == y[0];
      assert leq(a[0], x[0]) && leq(x[0], y[0]) ==> a[0] == x[0];
      LexBetween(leq, a[1..], x[1..], y[1..]);
      assert a == [a[0]] + a[1..] && x == [x[0]] + x[1..];
    }
  }

  // ---- sorting ------------------------------------------------------------------

  ghost predicate Sorted<T>(leq: (T, T) -> bool, s: seq<T>) {
    forall i, j :: 0 <= i < j < |s| ==> leq(s[i], s[j])
  }

  ghost predicate StrictlySorted<T>(leq: (T, T) -> bool, s: seq<T>) {
    forall i, j :: 0 <= i < j < |s| ==> leq(s[i], s[j]) && !leq(s[j], s[i])
  }

  function Insert<T>(leq: (T, T) -> bool, x: T, s: seq<T>): (r: seq<T>)
    ensures |r| == |s| + 1
  {
    if s == [] || leq(x, s[0]) then [x] + s else [s[0]] + Insert(leq, x, s[1..])
  }

  /** The result of a stable library sort. */
  function Sort<T>(leq: (T, T) -> bool, s: seq<T>): (r: seq<T>)
    ensures |r| == |s|
  {
    if s == [] then [] else Insert(leq, s[0], Sort(leq, s[1..]))
  }

  lemma {:induction false} InsertMultiset<T>(leq: (T, T) -> bool, x: T, s: seq<T>)
    ensures multiset(Insert(leq, x, s)) == multiset(s) + multiset{x}
  {
    if !(s == [] || leq(x, s[0])) {
      InsertMultiset(leq, x, s[1..]);
      assert s == [s[0]] + s[1..];
    }
  }

  lemma {:induction false} SortMultiset<T>(leq: (T, T) -> bool, s: seq<T>)
    ensures multiset(Sort(leq, s)) == multiset(s)
  {
    if s != [] {
      SortMultiset(leq, s[1..]);
      InsertMultiset(leq, s[0], Sort(leq, s[1..]));
      assert s == [s[0]] + s[1..];
    }
  }

  lemma SortMembers<T>(leq: (T, T) -> bool, s: seq<T>, x: T)
    ensures x in Sort(leq, s) <==> x in s
  {
    SortMultiset(leq, s);
    assert x in Sort(leq, s) <==> x in multiset(Sort(leq, s));
    assert x in s <==> x in multiset(s);
  }

  lemma {:induction false} InsertSorted<T(!new)>(leq: (T, T) -> bool, x: T, s: seq<T>)
    requires Preorder(leq) && Sorted(leq, s)
    ensures Sorted(leq, Insert(leq, x, s))
  {
    if s == [] {
    } else if leq(x, s[0]) {
      assert forall j :: 0 <= j < |s| ==> leq(x, s[j]);
    } else {
      var t := Insert(leq, x, s[1..]);
      InsertSorted(leq, x, s[1..]);
      InsertMultiset(leq, x, s[1..]);
      forall j | 0 <= j < |t| ensures leq(s[0], t[j]) {
        assert t[j] in multiset(t);
        assert t[j] == x || t[j] in s[1..];
      }
    }
  }

  lemma {:induction false} SortSorts<T(!new)>(leq: (T, T) -> bool, s: seq<T>)
    requires Preorder(leq)
    ensures Sorted(leq, Sort(leq, s))
  {
    if s != [] {
      SortSorts(leq, s[1..]);
      InsertSorted(leq, s[0], Sort(leq, s[1..]));
    }
  }

  lemma StrictMinimum<T(!new)>(leq: (T, T) -> bool, a: seq<T>, b: seq<T>)
    requires Reflexive(leq)
    requires StrictlySorted(leq, a) && Sorted(leq, b)
    requires multiset(a) == multiset(b) && a != [] && b != []
    ensures a[0] == b[0]
  {
    assert a[0] in multiset(b) && b[0] in multiset(a);
    var i :| 0 <= i < |b| && b[i] == a[0];
    assert leq(b[0], a[0]);
    var j :| 0 <= j < |a| && a[j] == b[0];
    assert j > 0 ==> !leq(a[j], a[0]);
  }

  /** A strictly sorted sequence is the only sorted arrangement of its elements. */
  lemma {:induction false} StrictUnique<T(!new)>(leq: (T, T) -> bool, a: seq<T>, b: seq<T>)
    requires Reflexive(leq)
    requires StrictlySorted(leq, a) && Sorted(leq, b)
    requires multiset(a) == multiset(b)
    ensures a == b
  {
    assert |multiset(a)| == |a| && |multiset(b)| == |b|;
    if a != [] {
      StrictMinimum(leq, a, b);
      DropFirst(a);
      DropFirst(b);
      StrictUnique(leq, a[1..], b[1..]);
      assert a == [a[0]] + a[1..] && b == [b[0]] + b[1..];
    }
  }

  /** Two sorted arrangements of the same elements agree when order decides equality. */
  lemma {:induction false} SortedUnique<T(!new)>(leq: (T, T) -> bool, a: seq<T>, b: seq<T>)
    requires TotalOrder(leq)
    requires Sorted(leq, a) && Sorted(leq, b)
    requires multiset(a) == multiset(b)
    ensures a == b
  {
    assert |multiset(a)| == |a| && |multiset(b)| == |b|;
    if a != [] {
      assert a[0] in multiset(b) && b[0] in multiset(a);
      assert a[0] in b && b[0] in a;
      assert leq(b[0], a[0]) && leq(a[0], b[0]);
      DropFirst(a);
      DropFirst(b);
      SortedUnique(leq, a[1..], b[1..]);
      assert a == [a[0]] + a[1..] && b == [b[0]] + b[1..];
    }
  }

  /** No element occurs twice exactly when each occurs once. */
  lemma {:induction false} Singles<T>(s: seq<T>)
    ensures (forall p :: p in multiset(s) ==> multiset(s)[p] == 1) <==>
              (forall i, j :: 0 <= i < j < |s| ==> s[i] != s[j])
  {
    if s != [] {
      var n := |s| - 1;
      var front, last := s[..n], s[n];
      Singles(front);
      assert s == front + [last];
      assert multiset(s) == multiset(front) + multiset{last};
      if forall p :: p in multiset(s) ==> multiset(s)[p] == 1 {
        assert multiset(s)[last] == 1;
        assert last !in front;
        forall p | p in multiset(front) ensures multiset(front)[p] == 1 {
          assert p in multiset(s);
        }
        forall i, j | 0 <= i < j < |s| ensures s[i] != s[j] {
          if j < n { assert front[i] != front[j]; } else { assert front[i] in front; }
        }
      }
      if forall i, j :: 0 <= i < j < |s| ==> s[i] != s[j] {
        assert forall i, j :: 0 <= i < j < |front| ==> front[i] != front[j];
        assert last !in front;
        forall p | p in multiset(s) ensures multiset(s)[p] == 1 {
          if p != last { assert p in multiset(front); }
        }
      }
    }
  }

  // ---- stability ------------------------------------------------------------------

  predicate Equivalent<T>(leq: (T, T) -> bool, x: T, y: T) {
    leq(x, y) && leq(y, x)
  }

  /** The elements ranked equal to `k`, in order. */
  function Class<T>(leq: (T, T) -> bool, k: T, s: seq<T>): seq<T>
  {
    if s == [] then []
    else (if Equivalent(leq, k, s[0]) then [s[0]] else []) + Class(leq, k, s[1..])
  }

  lemma {:induction false} ClassConcat<T>(leq: (T, T) -> bool, k: T, a: seq<T>, b: seq<T>)
    ensures Class(leq, k, a + b) == Class(leq, k, a) + Class(leq, k, b)
  {
    hide Equivalent;
    if a == [] {
      assert a + b == b;
    } else {
      assert (a + b)[0] == a[0] && (a + b)[1..] == a[1..] + b;
      ClassConcat(leq, k, a[1..], b);
      var head := if Equivalent(leq, k, a[0]) then [a[0]] else [];
      assert head + (Class(leq, k, a[1..]) + Class(leq, k, b)) == (head + Class(leq, k, a[1..])) + Class(leq, k, b);
    }
  }

  lemma {:induction false} ClassMember<T>(leq: (T, T) -> bool, k: T, s: seq<T>, x: T)
    ensures x in Class(leq, k, s) <==> x in s && Equivalent(leq, k, x)
  {
    if s != [] {
      ClassMember(leq, k, s[1..], x);
      assert s == [s[0]] + s[1..];
    }
  }

  lemma ClassHead<T>(leq: (T, T) -> bool, k: T, s: seq<T>)
    requires s != []
    ensures Class(leq, k, s) ==
            if Equivalent(leq, k, s[0]) then [s[0]] + Class(leq, k, s[1..]) else Class(leq, k, s[1..])
  {
    assert [] + Class(leq, k, s[1..]) == Class(leq, k, s[1..]);
  }

  /** Where the `n`-th member of a class stands in the list: those of its class before it in the
      list are before it in the class. */
  lemma {:induction false} ClassPlace<T>(leq: (T, T) -> bool, k: T, s: seq<T>, n: nat) returns (i: nat)
    requires n < |Class(leq, k, s)|
    ensures i < |s| && s[i] == Class(leq, k, s)[n]
    ensures forall j :: 0 <= j < i && Equivalent(leq, k, s[j]) ==> s[j] in Class(leq, k, s)[..n]
  {
    assert s != [];
    ClassHead(leq, k, s);
    hide Equivalent, Class;
    var rest := Class(leq, k, s[1..]);
    if !Equivalent(leq, k, s[0]) {
      var inner := ClassPlace(leq, k, s[1..], n);
      i := inner + 1;
      forall j | 0 <= j < i && Equivalent(leq, k, s[j]) ensures s[j] in rest[..n] {
        assert s[j] == s[1..][j - 1];
      }
    } else if n == 0 {
      i := 0;
    } else {
      var inner := ClassPlace(leq, k, s[1..], n - 1);
      i := inner + 1;
      assert Class(leq, k, s)[..n] == [s[0]] + rest[..n - 1];
      forall j | 0 < j < i && Equivalent(leq, k, s[j]) ensures s[j] in rest[..n - 1] {
        assert s[j] == s[1..][j - 1];
      }
    }
  }

  lemma {:induction false} InsertClass<T(!new)>(leq: (T, T) -> bool, k: T, x: T, s: seq<T>)
    requires Preorder(leq) && Sorted(leq, s)
    ensures Class(leq, k, Insert(leq, x, s)) == Class(leq, k, [x] + s)
  {
    if s == [] || leq(x, s[0]) {
      return;
    }
    InsertClass(leq, k, x, s[1..]);
    var t := Insert(leq, x, s[1..]);
    assert ([s[0]] + t)[1..] == t;
    assert ([x] + s)[1..] == s;
    assert ([x] + s[1..])[1..] == s[1..];
    // `x` ranks strictly after `s[0]`, so no class holds both.
    assert !(Equivalent(leq, k, x) && Equivalent(leq, k, s[0]));
  }

  /** Sorting is stable: elements of equal rank keep their order. */
  lemma {:induction false} SortStable<T(!new)>(leq: (T, T) -> bool, k: T, s: seq<T>)
    requires Preorder(leq)
    ensures Class(leq, k, Sort(leq, s)) == Class(leq, k, s)
  {
    if s != [] {
      SortSorts(leq, s[1..]);
      SortStable(leq, k, s[1..]);
      InsertClass(leq, k, s[0], Sort(leq, s[1..]));
      assert ([s[0]] + Sort(leq, s[1..]))[1..] == Sort(leq, s[1..]);
    }
  }

  lemma InhabitedClass<T(!new)>(leq: (T, T) -> bool, s: seq<T>)
    requires Reflexive(leq)
    ensures s != [] ==> exists k :: Class(leq, k, s) != []
  {
    if s != [] { assert Class(leq, s[0], s)[0] == s[0]; }
  }

  /** A sorted sequence is determined by its classes. */
  lemma {:induction false} SortedByClasses<T(!new)>(leq: (T, T) -> bool, a: seq<T>, b: seq<T>)
    requires Preorder(leq)
    requires Sorted(leq, a) && Sorted(leq, b)
    requires forall k :: Class(leq, k, a) == Class(leq, k, b)
    ensures a == b
  {
    InhabitedClass(leq, a);
    InhabitedClass(leq, b);
    if a != [] && b != [] {
      assert a[0] in Class(leq, a[0], a);
      assert Class(leq, a[0], b) == Class(leq, a[0], a);
      ClassMember(leq, a[0], b, a[0]);
      assert b[0] in Class(leq, b[0], b);
      assert Class(leq, b[0], a) == Class(leq, b[0], b);
      ClassMember(leq, b[0], a, b[0]);
      assert Equivalent(leq, a[0], b[0]);
      assert a[0] == Class(leq, a[0], a)[0] == Class(leq, a[0], b)[0] == b[0];
      forall k ensures Class(leq, k, a[1..]) == Class(leq, k, b[1..]) {
        assert Class(leq, k, a) == Class(leq, k, b);
        if Equivalent(leq, k, a[0]) {
          assert Class(leq, k, a)[1..] == Class(leq, k, a[1..]);
          assert Class(leq, k, b)[1..] == Class(leq, k, b[1..]);
        } else {
          assert Class(leq, k, a) == Class(leq, k, a[1..]);
          assert Class(leq, k, b) == Class(leq, k, b[1..]);
        }
      }
      SortedByClasses(leq, a[1..], b[1..]);
      assert a == [a[0]] + a[1..] && b == [b[0]] + b[1..];
    }
  }

  /** A stable sort forgets every rearrangement that keeps the order inside each class. */
  lemma SortByClasses<T(!new)>(leq: (T, T) -> bool, a: seq<T>, b: seq<T>)
    requires Preorder(leq)
    requires forall k :: Class(leq, k, a) == Class(leq, k, b)
    ensures Sort(leq, a) == Sort(leq, b)
  {
    SortSorts(leq, a);
    SortSorts(leq, b);
    forall k ensures Class(leq, k, Sort(leq, a)) == Class(leq, k, Sort(leq, b)) {
      SortStable(leq, k, a);
      SortStable(leq, k, b);
      assert Class(leq, k, a) == Class(leq, k, b);
    }
    SortedByClasses(leq, Sort(leq, a), Sort(leq, b));
  }
}

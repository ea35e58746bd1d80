/** Manifests and releases sort whole path strings and compare neighbours only, to keep a
    file from also being used as a directory. What that check accepts, exactly. */
module Collisions {
  import opened Bytes
  import opened Order
  import opened LogicalPath

  /** The neighbour check over a sorted list of path strings. */
  predicate NeighboursAccepted(paths: seq<seq<byte>>)
  {
    forall i :: 0 < i < |paths| ==> paths[i - 1] != paths[i] && !Below(paths[i - 1], paths[i])
  }

  /** What the check is for: no path is listed twice, none is a directory of another. */
  predicate CollisionFree(paths: seq<seq<byte>>)
  {
    forall i, j :: 0 <= i < |paths| && 0 <= j < |paths| && i != j ==>
      paths[i] != paths[j] && !Below(paths[i], paths[j])
  }

  /** `other` extends `path` with a byte that sorts before the separator, as in `a.txt` for `a`:
      it stands between `path` and everything below `path`. */
  predicate Shields(path: seq<byte>, other: seq<byte>)
  {
    path < other && other[|path|] < SLASH
  }

  predicate Distinct(paths: seq<seq<byte>>)
  {
    forall i, j :: 0 <= i < j < |paths| ==> paths[i] != paths[j]
  }

  lemma {:induction false} LexTails(a: seq<byte>, x: seq<byte>, y: seq<byte>)
    requires a < x && a < y && PathLeq(x, y)
    ensures x[|a|] <= y[|a|]
  {
    if a != [] { LexTails(a[1..], x[1..], y[1..]); }
  }

  lemma {:induction false} LexByNextByte(a: seq<byte>, x: seq<byte>, y: seq<byte>)
    requires a < x && a < y && x[|a|] < y[|a|]
    ensures PathLess(x, y)
  {
    if a != [] { LexByNextByte(a[1..], x[1..], y[1..]); }
  }

  /** Whatever sorts between a file and something below it equals it, shields it or lies below it. */
  lemma BetweenFileAndContents(a: seq<byte>, x: seq<byte>, y: seq<byte>)
    requires PathLeq(a, x) && PathLeq(x, y) && Below(a, y)
    ensures x == a || Shields(a, x) || Below(a, x)
  {
    PathOrder();
    LexBetween(ByteLeq, a, x, y);
    if x != a {
      LexTails(a, x, y);
      assert y[|a|] == SLASH;
      assert x[..|a| + 1] == a + [x[|a|]];
    }
  }

  lemma ShieldIsInside(a: seq<byte>, x: seq<byte>, y: seq<byte>)
    requires Shields(a, x) && Below(a, y)
    ensures PathLess(a, x) && PathLess(x, y)
  {
    PathOrder();
    LexPrefix(ByteLeq, a, x);
    assert y[|a|] == SLASH;
    LexByNextByte(a, x, y);
  }

  lemma BelowAscends(a: seq<byte>, y: seq<byte>)
    requires Below(a, y)
    ensures PathLess(a, y)
  {
    PathOrder();
    LexPrefix(ByteLeq, a, y);
  }

  lemma SortedIndex(paths: seq<seq<byte>>, i: nat, j: nat)
    requires Sorted(PathLeq, paths) && i < |paths| && j < |paths|
    ensures PathLess(paths[i], paths[j]) ==> i < j
  {
    PathOrder();
  }

  lemma AcceptedAreDistinct(paths: seq<seq<byte>>)
    requires Sorted(PathLeq, paths) && NeighboursAccepted(paths)
    ensures Distinct(paths)
  {
    PathOrder();
    forall i, j | 0 <= i < j < |paths| ensures paths[i] != paths[j] {
      assert paths[i + 1 - 1] != paths[i + 1];
      assert PathLeq(paths[i], paths[i + 1]);
      assert i + 1 < j ==> PathLeq(paths[i + 1], paths[j]);
    }
  }

  ghost predicate EveryDirectoryShielded(paths: seq<seq<byte>>)
  {
    forall i, j :: 0 <= i < |paths| && 0 <= j < |paths| && Below(paths[i], paths[j]) ==>
      exists k :: 0 <= k < |paths| && Shields(paths[i], paths[k])
  }

  lemma NextShields(paths: seq<seq<byte>>, i: nat, j: nat)
    requires Sorted(PathLeq, paths) && NeighboursAccepted(paths)
    requires i < |paths| && j < |paths| && Below(paths[i], paths[j])
    ensures i + 1 < |paths| && Shields(paths[i], paths[i + 1])
  {
    BelowAscends(paths[i], paths[j]);
    SortedIndex(paths, i, j);
    PathOrder();
    assert paths[i + 1 - 1] != paths[i + 1] && !Below(paths[i + 1 - 1], paths[i + 1]);
    BetweenFileAndContents(paths[i], paths[i + 1], paths[j]);
  }

  lemma NeighboursUnshielded(paths: seq<seq<byte>>, i: nat, k: nat)
    requires Sorted(PathLeq, paths)
    requires 0 < i < |paths| && k < |paths| && Below(paths[i - 1], paths[i])
    ensures !Shields(paths[i - 1], paths[k])
  {
    SortedIndex(paths, i - 1, k);
    SortedIndex(paths, k, i);
    if Shields(paths[i - 1], paths[k]) { ShieldIsInside(paths[i - 1], paths[k], paths[i]); }
  }

  /** The neighbour check accepts a sorted list exactly when its paths are distinct and every
      file that is also used as a directory is shielded by some other listed path. */
  lemma NeighboursAcceptedMeaning(paths: seq<seq<byte>>)
    requires Sorted(PathLeq, paths)
    ensures NeighboursAccepted(paths) <==> Distinct(paths) && EveryDirectoryShielded(paths)
  {
    hide Below, Shields, PathLeq;
    if NeighboursAccepted(paths) {
      AcceptedAreDistinct(paths);
      forall i, j | 0 <= i < |paths| && 0 <= j < |paths| && Below(paths[i], paths[j])
        ensures exists k :: 0 <= k < |paths| && Shields(paths[i], paths[k])
      {
        NextShields(paths, i, j);
      }
    }
    if Distinct(paths) && EveryDirectoryShielded(paths) {
      forall i | 0 < i < |paths| ensures paths[i - 1] != paths[i] && !Below(paths[i - 1], paths[i]) {
        if Below(paths[i - 1], paths[i]) {
          var k :| 0 <= k < |paths| && Shields(paths[i - 1], paths[k]);
          NeighboursUnshielded(paths, i, k);
        }
      }
    }
  }

  /** An accepted list meets the purpose of the check exactly when no file of it is both
      extended by a byte below the separator and used as a directory. */
  lemma AcceptedIsCollisionFree(paths: seq<seq<byte>>)
    requires Sorted(PathLeq, paths) && NeighboursAccepted(paths)
    ensures CollisionFree(paths) <==>
              forall i, j, k :: 0 <= i < |paths| && 0 <= j < |paths| && 0 <= k < |paths| ==>
                !(Shields(paths[i], paths[k]) && Below(paths[i], paths[j]))
  {
    NeighboursAcceptedMeaning(paths);
    forall i | 0 <= i < |paths| ensures !Below(paths[i], paths[i]) {}
  }

  /** Where no listed path extends another with a byte below the separator, comparing
      neighbours is the same as comparing all pairs. */
  lemma UnshieldedCheckIsExact(paths: seq<seq<byte>>)
    requires Sorted(PathLeq, paths)
    requires forall i, k :: 0 <= i < |paths| && 0 <= k < |paths| ==> !Shields(paths[i], paths[k])
    ensures NeighboursAccepted(paths) <==> CollisionFree(paths)
  {
    NeighboursAcceptedMeaning(paths);
    if NeighboursAccepted(paths) { AcceptedIsCollisionFree(paths); }
    if CollisionFree(paths) {
      forall i | 0 < i < |paths| ensures paths[i - 1] != paths[i] && !Below(paths[i - 1], paths[i]) {}
    }
  }

  ghost predicate SortedSelection(part: seq<seq<byte>>, paths: seq<seq<byte>>)
  {
    Sorted(PathLeq, part) && forall p :: p in part ==> p in paths
  }

  lemma TripleFoolsCheck(a: seq<byte>, x: seq<byte>, y: seq<byte>)
    requires Shields(a, x) && Below(a, y)
    ensures var t := [a, x, y];
      Sorted(PathLeq, t) && NeighboursAccepted(t) && !CollisionFree(t)
  {
    var t := [a, x, y];
    ShieldIsInside(a, x, y);
    BelowAscends(a, y);
    PathOrder();
    assert x[|a|] != SLASH && y[|a|] == SLASH;
    assert Below(t[0], t[2]);
  }

  /** The check can be trusted on every selection from a pool of paths exactly when the pool
      holds no file that is both extended by a byte below the separator and used as a directory. */
  lemma TrustedPools(pool: seq<seq<byte>>)
    ensures (forall part :: SortedSelection(part, pool) && NeighboursAccepted(part) ==> CollisionFree(part))
       <==> (forall a, x, y :: a in pool && x in pool && y in pool ==> !(Shields(a, x) && Below(a, y)))
  {
    if forall part :: SortedSelection(part, pool) && NeighboursAccepted(part) ==> CollisionFree(part) {
      forall a, x, y | a in pool && x in pool && y in pool ensures !(Shields(a, x) && Below(a, y)) {
        if Shields(a, x) && Below(a, y) {
          TripleFoolsCheck(a, x, y);
          assert SortedSelection([a, x, y], pool);
        }
      }
    }
    if forall a, x, y :: a in pool && x in pool && y in pool ==> !(Shields(a, x) && Below(a, y)) {
      forall part | SortedSelection(part, pool) && NeighboursAccepted(part) ensures CollisionFree(part) {
        AcceptedIsCollisionFree(part);
      }
    }
  }

  // ---- the paths a, a.txt, a/b ---------------------------------------------------------

  function File(): seq<byte> { Ascii("a") }
  function Sibling(): seq<byte> { Ascii("a.txt") }
  function Child(): seq<byte> { Ascii("a/b") }

  lemma PlainName(n: Name)
    requires 0 < |n| < 10 && (forall b :: b in n ==> SPACE < b < 0x7F && b != BACKSLASH)
    requires n[|n| - 1] != DOT && |Stem(n)| < 3
    ensures PortableName(n)
  {
    forall i | 0 <= i < |n| ensures !ControlAt(n, i) {
      assert n[i] in n;
    }
    assert n[|n| - 1] in n;
  }

  lemma ExamplesArePortable()
    ensures PortablePath(File()) && PortablePath(Sibling()) && PortablePath(Child())
  {
    hide PortablePath, PortableName, Split;
    var a, t, b := Ascii("a"), Ascii("a.txt"), Ascii("b");
    assert Stem(a) == a && Stem(b) == b;
    assert Stem(t[1..]) == [] && |Stem(t)| == 1;
    PlainName(a);
    PlainName(t);
    PlainName(b);
    SplitName(a);
    SplitName(t);
    SplitName(b);
    SplitConcat(a, b);
    assert a + [SLASH] + b == Child();
    PortablePathMeaning(File());
    PortablePathMeaning(Sibling());
    PortablePathMeaning(Child());
  }

  /** Three portable paths pass the neighbour check although the first is a directory of the third. */
  lemma NeighbourCheckMissesCollision()
    ensures var paths := [File(), Sibling(), Child()];
      && (forall i :: 0 <= i < 3 ==> PortablePath(paths[i]))
      && Sorted(PathLeq, paths) && NeighboursAccepted(paths)
      && Below(paths[0], paths[2])
  {
    hide PortablePath;
    ExamplesArePortable();
    assert File() + [SLASH] == Ascii("a/");
    TripleFoolsCheck(File(), Sibling(), Child());
  }
}

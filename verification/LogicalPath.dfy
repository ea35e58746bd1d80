/** Logical paths: `/`-separated, relative and portable across file systems. */
module LogicalPath {
  import opened Bytes
  import opened Order

  const SLASH: byte := '/' as int
  const BACKSLASH: byte := '\\' as int
  const DOT: byte := '.' as int
  const SPACE: byte := ' ' as int
  const MAX_PATH_BYTES: nat := 4096
  const MAX_COMPONENTS: nat := 64
  const MAX_COMPONENT_BYTES: nat := 255

  type Name = seq<byte>

  // ---- splitting and joining ------------------------------------------------------

  function Split(s: seq<byte>): (names: seq<Name>)
    ensures |names| >= 1
  {
    if s == [] then [[]]
    else if s[0] == SLASH then [[]] + Split(s[1..])
    else
      var t := Split(s[1..]);
      [[s[0]] + t[0]] + t[1..]
  }

  function Join(names: seq<Name>): seq<byte>
  {
    if names == [] then []
    else if |names| == 1 then names[0]
    else names[0] + [SLASH] + Join(names[1..])
  }

  lemma {:induction false} JoinSplit(s: seq<byte>)
    ensures Join(Split(s)) == s
  {
    if s != [] {
      JoinSplit(s[1..]);
      var t := Split(s[1..]);
      if s[0] == SLASH {
        assert Split(s)[1..] == t;
      } else {
        assert Split(s)[1..] == t[1..];
      }
    }
  }

  lemma {:induction false} SplitName(n: Name)
    requires SLASH !in n
    ensures Split(n) == [n]
  {
    if n != [] {
      assert n[0] in n && SLASH !in n[1..];
      SplitName(n[1..]);
      assert n == [n[0]] + n[1..];
    }
  }

  function OntoFirst(b: byte, names: seq<Name>): seq<Name>
    requires names != []
  {
    if b == SLASH then [[]] + names else [[b] + names[0]] + names[1..]
  }

  lemma SplitCons(b: byte, s: seq<byte>)
    ensures Split([b] + s) == OntoFirst(b, Split(s))
    ensures Split([]) == [[]]
  {
    assert ([b] + s)[1..] == s;
  }

  lemma OntoFirstConcat(b: byte, t: seq<Name>, u: seq<Name>)
    requires t != []
    ensures OntoFirst(b, t + u) == OntoFirst(b, t) + u
  {
    assert (t + u)[1..] == t[1..] + u;
  }

  /** Splitting commutes with joining two paths by a separator. */
  lemma {:induction false} SplitConcat(p: seq<byte>, r: seq<byte>)
    ensures Split(p + [SLASH] + r) == Split(p) + Split(r)
  {
    hide Split;
    if p == [] {
      assert p + [SLASH] + r == [SLASH] + r;
      SplitCons(SLASH, r);
    } else {
      var tail := p[1..];
      SplitConcat(tail, r);
      SplitCons(p[0], tail);
      SplitCons(p[0], tail + [SLASH] + r);
      assert p == [p[0]] + tail;
      assert p + [SLASH] + r == [p[0]] + (tail + [SLASH] + r);
      OntoFirstConcat(p[0], Split(tail), Split(r));
    }
  }

  lemma {:induction false} SplitJoin(names: seq<Name>)
    requires names != [] && forall n :: n in names ==> SLASH !in n
    ensures Split(Join(names)) == names
  {
    SplitName(names[0]);
    if |names| > 1 {
      SplitJoin(names[1..]);
      SplitConcat(names[0], Join(names[1..]));
    }
  }

  lemma {:induction false} SplitPieces(s: seq<byte>, n: Name)
    requires n in Split(s)
    ensures SLASH !in n
  {
    if s != [] {
      var t := Split(s[1..]);
      if s[0] == SLASH {
        if n != [] { SplitPieces(s[1..], n); }
      } else if n in t[1..] {
        SplitPieces(s[1..], n);
      } else {
        SplitPieces(s[1..], t[0]);
      }
    }
  }

  lemma {:induction false} JoinConcat(a: seq<Name>, b: seq<Name>)
    requires a != [] && b != []
    ensures Join(a + b) == Join(a) + [SLASH] + Join(b)
  {
    if |a| == 1 {
      assert (a + b)[1..] == b;
    } else {
      assert (a + b)[1..] == a[1..] + b;
      JoinConcat(a[1..], b);
    }
  }

  /** `file` lies below `directory`: what `starts_with("{directory}/")` tests. */
  predicate Below(directory: seq<byte>, file: seq<byte>)
  {
    directory + [SLASH] <= file
  }

  /** The string test finds exactly the files whose components extend the directory's. */
  lemma BelowIsComponentPrefix(directory: seq<byte>, file: seq<byte>)
    ensures Below(directory, file) <==> Split(directory) < Split(file)
  {
    if Below(directory, file) {
      var rest := file[|directory| + 1..];
      assert file == directory + [SLASH] + rest;
      SplitConcat(directory, rest);
    }
    if Split(directory) < Split(file) {
      var rest := Split(file)[|Split(directory)|..];
      assert Split(file) == Split(directory) + rest;
      JoinConcat(Split(directory), rest);
      JoinSplit(directory);
      JoinSplit(file);
    }
  }

  // ---- path order ------------------------------------------------------------------

  predicate ByteLeq(a: byte, b: byte) {
    a <= b
  }

  predicate PathLeq(a: seq<byte>, b: seq<byte>) {
    LexLeq(ByteLeq, a, b)
  }

  predicate PathLess(a: seq<byte>, b: seq<byte>) {
    !PathLeq(b, a)
  }

  lemma PathOrder()
    ensures TotalOrder(ByteLeq) && TotalOrder(PathLeq)
  {
    LexTotalOrder(ByteLeq, PathLeq);
  }

  // ---- portable components --------------------------------------------------------

  function Upper(b: byte): byte
  {
    if 'a' as int <= b <= 'z' as int then b - 32 else b
  }

  function UpperAll(s: seq<byte>): (r: seq<byte>)
    ensures |r| == |s|
    ensures forall i :: 0 <= i < |s| ==> r[i] == Upper(s[i])
  {
    seq(|s|, i requires 0 <= i < |s| => Upper(s[i]))
  }

  /** Everything before the first dot. */
  function Stem(n: Name): (stem: Name)
    ensures stem <= n
    ensures DOT !in stem
    ensures stem == n || n[|stem|] == DOT
  {
    if n == [] || n[0] == DOT then [] else [n[0]] + Stem(n[1..])
  }

  predicate SerialDigit(b: byte)
  {
    '1' as int <= b <= '9' as int
  }

  /** Device names reserved by Windows, with any extension and in any case. */
  predicate ReservedName(n: Name)
  {
    var stem := UpperAll(Stem(n));
    || stem in [Ascii("CON"), Ascii("PRN"), Ascii("AUX"), Ascii("NUL")]
    || (Ascii("COM") <= stem && |stem| == 4 && SerialDigit(stem[3]))
    || (Ascii("LPT") <= stem && |stem| == 4 && SerialDigit(stem[3]))
  }

  /** A Unicode control character (general category Cc) starts at `i`. */
  predicate ControlAt(s: seq<byte>, i: nat)
    requires i < |s|
  {
    || s[i] < 0x20
    || s[i] == 0x7F
    || (s[i] == 0xC2 && i + 1 < |s| && 0x80 <= s[i + 1] < 0xA0)
  }

  predicate HasControl(s: seq<byte>)
  {
    exists i :: 0 <= i < |s| && ControlAt(s, i)
  }

  predicate PortableName(n: Name)
  {
    && n != []
    && |n| <= MAX_COMPONENT_BYTES
    && BACKSLASH !in n
    && !HasControl(n)
    && n[|n| - 1] != DOT && n[|n| - 1] != SPACE
    && !ReservedName(n)
  }

  // ---- the check as the code stages it --------------------------------------------

  /** What the standard library's `Path::components` yields for a relative Unix path. */
  datatype Component = CurDir | ParentDir | Normal(name: Name)

  function ComponentsFrom(pieces: seq<Name>, first: bool): seq<Component>
  {
    if pieces == [] then []
    else
      var rest := ComponentsFrom(pieces[1..], false);
      if pieces[0] == [] then rest
      else if pieces[0] == [DOT] then (if first then [CurDir] else []) + rest
      else if pieces[0] == [DOT, DOT] then [ParentDir] + rest
      else [Normal(pieces[0])] + rest
  }

  function Components(value: seq<byte>): seq<Component>
  {
    ComponentsFrom(Split(value), true)
  }

  function Names(cs: seq<Component>): (names: seq<Name>)
    requires forall c :: c in cs ==> c.Normal?
    ensures |names| == |cs|
    ensures forall i :: 0 <= i < |cs| ==> names[i] == cs[i].name
  {
    seq(|cs|, i requires 0 <= i < |cs| => cs[i].name)
  }

  /** `validate_portable_path`, stage by stage. */
  predicate PortablePath(value: seq<byte>)
  {
    && value != [] && |value| <= MAX_PATH_BYTES && value[0] != SLASH
    && var cs := Components(value);
    && cs != [] && |cs| <= MAX_COMPONENTS
    && (forall c :: c in cs ==> c.Normal?)
    && Join(Names(cs)) == value
    && (forall n :: n in Names(cs) ==> PortableName(n))
  }

  lemma {:induction false} NormalPieces(pieces: seq<Name>, first: bool)
    requires forall n :: n in pieces ==> n != [] && n != [DOT] && n != [DOT, DOT]
    ensures |ComponentsFrom(pieces, first)| == |pieces|
    ensures forall i :: 0 <= i < |pieces| ==> ComponentsFrom(pieces, first)[i] == Normal(pieces[i])
  {
    if pieces != [] {
      assert pieces[0] in pieces && forall n :: n in pieces[1..] ==> n in pieces;
      NormalPieces(pieces[1..], false);
    }
  }

  lemma {:induction false} ComponentsArePieces(pieces: seq<Name>, first: bool, n: Name)
    requires Normal(n) in ComponentsFrom(pieces, first)
    ensures n in pieces
  {
    if pieces != [] && pieces[0] != n { ComponentsArePieces(pieces[1..], false, n); }
  }

  lemma EmptyFirstPiece(value: seq<byte>)
    ensures value == [] || value[0] == SLASH ==> Split(value)[0] == []
  {
  }

  /** The staged check accepts exactly the short `/`-joined lists of portable names. */
  lemma PortablePathMeaning(value: seq<byte>)
    ensures PortablePath(value) <==>
              && |value| <= MAX_PATH_BYTES
              && |Split(value)| <= MAX_COMPONENTS
              && forall n :: n in Split(value) ==> PortableName(n)
  {
    var pieces := Split(value);
    var cs := ComponentsFrom(pieces, true);
    if PortablePath(value) {
      var names := Names(cs);
      forall n | n in names ensures SLASH !in n {
        var i :| 0 <= i < |names| && names[i] == n;
        assert cs[i] in cs && cs[i] == Normal(n);
        ComponentsArePieces(pieces, true, n);
        SplitPieces(value, n);
      }
      SplitJoin(names);
      assert pieces == names;
    }
    if |value| <= MAX_PATH_BYTES && |pieces| <= MAX_COMPONENTS && forall n :: n in pieces ==> PortableName(n) {
      assert pieces[0] in pieces && forall n :: PortableName(n) ==> n != [DOT] && n != [DOT, DOT];
      NormalPieces(pieces, true);
      assert Names(cs) == pieces;
      JoinSplit(value);
      EmptyFirstPiece(value);
    }
  }

  // ---- the rules, spelled out ------------------------------------------------------

  /** The letters of `word`, each in either case. */
  predicate Spells(s: seq<byte>, word: seq<byte>)
  {
    |s| == |word| && forall i :: 0 <= i < |s| ==> s[i] == word[i] || s[i] as int == word[i] as int + 32
  }

  predicate DeviceStem(s: seq<byte>)
  {
    || Spells(s, Ascii("CON")) || Spells(s, Ascii("PRN")) || Spells(s, Ascii("AUX")) || Spells(s, Ascii("NUL"))
    || (|s| == 4 && (Spells(s[..3], Ascii("COM")) || Spells(s[..3], Ascii("LPT"))) && '1' as int <= s[3] <= '9' as int)
  }

  /** What stands in front of the first dot, or all of the name, is a device. */
  ghost predicate NamesDevice(n: Name)
  {
    exists k :: 0 <= k <= |n| && (k == |n| || n[k] == '.' as int) && DeviceStem(n[..k])
                && forall j :: 0 <= j < k ==> n[j] != '.' as int
  }

  lemma UppercaseSpells(s: seq<byte>, word: seq<byte>)
    requires forall i :: 0 <= i < |word| ==> 'A' as int <= word[i] <= 'Z' as int
    ensures UpperAll(s) == word <==> Spells(s, word)
  {
  }

  lemma Devices(s: seq<byte>)
    ensures (UpperAll(s) in [Ascii("CON"), Ascii("PRN"), Ascii("AUX"), Ascii("NUL")]) <==>
              Spells(s, Ascii("CON")) || Spells(s, Ascii("PRN")) || Spells(s, Ascii("AUX")) || Spells(s, Ascii("NUL"))
  {
    UppercaseSpells(s, Ascii("CON"));
    UppercaseSpells(s, Ascii("PRN"));
    UppercaseSpells(s, Ascii("AUX"));
    UppercaseSpells(s, Ascii("NUL"));
    hide Spells, UpperAll;
  }

  lemma SerialDevices(s: seq<byte>, word: seq<byte>)
    requires |word| == 3 && forall i :: 0 <= i < 3 ==> 'A' as int <= word[i] <= 'Z' as int
    ensures word <= UpperAll(s) && |s| == 4 <==> |s| == 4 && Spells(s[..3], word)
    ensures |s| == 4 ==> (SerialDigit(UpperAll(s)[3]) <==> '1' as int <= s[3] <= '9' as int)
  {
    if |s| == 4 {
      assert UpperAll(s[..3]) == UpperAll(s)[..3];
      UppercaseSpells(s[..3], word);
    }
  }

  lemma {:induction false} StemIsFront(n: Name, k: nat)
    requires k <= |n| && (k == |n| || n[k] == '.' as int) && forall j :: 0 <= j < k ==> n[j] != '.' as int
    ensures Stem(n) == n[..k]
  {
    if k > 0 {
      assert forall j :: 0 <= j < k - 1 ==> n[1..][j] == n[j + 1];
      StemIsFront(n[1..], k - 1);
      assert n[..k] == [n[0]] + n[1..][..k - 1];
    }
  }

  lemma StemDecides(n: Name)
    ensures ReservedName(n) <==> DeviceStem(Stem(n))
  {
    var stem := Stem(n);
    Devices(stem);
    SerialDevices(stem, Ascii("COM"));
    SerialDevices(stem, Ascii("LPT"));
    hide Spells, UpperAll, SerialDigit;
  }

  lemma ReservedExactly(n: Name)
    ensures ReservedName(n) <==> NamesDevice(n)
  {
    StemDecides(n);
    hide ReservedName, DeviceStem;
    var stem := Stem(n);
    assert n[..|stem|] == stem;
    forall j | 0 <= j < |stem| ensures n[j] != '.' as int { assert stem[j] in stem && n[j] == stem[j]; }
    forall k | 0 <= k <= |n| && (k == |n| || n[k] == '.' as int) && forall j :: 0 <= j < k ==> n[j] != '.' as int
      ensures n[..k] == stem
    {
      StemIsFront(n, k);
    }
  }

  /** 1 to 255 bytes, none of them a control character, DEL, a backslash or the start of a C1
      control character, the last neither a dot nor a space, and no device. */
  ghost predicate NameRules(n: Name)
  {
    && 1 <= |n| <= 255
    && (forall i :: 0 <= i < |n| ==> n[i] >= 0x20 && n[i] != 0x7F && n[i] != '\\' as int)
    && (forall i :: 0 < i < |n| ==> !(n[i - 1] == 0xC2 && 0x80 <= n[i] < 0xA0))
    && n[|n| - 1] != '.' as int && n[|n| - 1] != ' ' as int
    && !NamesDevice(n)
  }

  lemma NameRulesExactly(n: Name)
    ensures PortableName(n) <==> NameRules(n)
  {
    ReservedExactly(n);
    hide ReservedName, NamesDevice;
    if NameRules(n) {
      forall i | 0 <= i < |n| ensures !ControlAt(n, i) {
        if i + 1 < |n| { assert !(n[i + 1 - 1] == 0xC2 && 0x80 <= n[i + 1] < 0xA0); }
      }
    }
    if PortableName(n) {
      forall i | 0 <= i < |n| ensures n[i] >= 0x20 && n[i] != 0x7F && n[i] != '\\' as int {
        assert !ControlAt(n, i) && n[i] in n;
      }
      forall i | 0 < i < |n| ensures !(n[i - 1] == 0xC2 && 0x80 <= n[i] < 0xA0) {
        assert !ControlAt(n, i - 1);
      }
    }
  }

  /** The check, with every rule spelled out: at most 4096 bytes and 64 components, each within the
      rules for names. */
  lemma PortablePathExactly(value: seq<byte>)
    ensures PortablePath(value) <==>
              |value| <= 4096 && |Split(value)| <= 64 && forall n :: n in Split(value) ==> NameRules(n)
  {
    hide PortableName, NameRules, PortablePath, Split;
    PortablePathMeaning(value);
    forall n ensures PortableName(n) <==> NameRules(n) { NameRulesExactly(n); }
  }
}

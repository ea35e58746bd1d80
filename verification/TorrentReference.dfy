/** Portable torrent references: hexadecimal text, printing and strict parsing. */
module TorrentReference {
  import opened Bytes
  import opened Outcomes
  import opened DatasetManifest

  type Bytes20 = h: seq<byte> | |h| == 20 witness seq(20, i => 0)

  const MULTIHASH: seq<byte> := [0x12, 0x20]

  /** A SHA2-256 multihash: its two-byte tag and 32 digest bytes. */
  type Btmh = m: seq<byte> | |m| == 34 && MULTIHASH <= m witness MULTIHASH + seq(32, i => 0)

  datatype TorrentRef = Btih(v1: Bytes20) | BtmhRef(v2: Btmh) | VerifiedHybrid(btih: Bytes20, btmh: Btmh)

  /** `Btmh::from_sha256`, copying byte by byte. */
  method FromSha256(digest: Bytes32) returns (m: Btmh)
    ensures m == MULTIHASH + digest
  {
    var bytes: seq<byte> := MULTIHASH;
    for index := 0 to |digest|
      invariant bytes == MULTIHASH + digest[..index]
    {
      bytes := bytes + [digest[index]];
    }
    assert digest[..|digest|] == digest;
    m := bytes;
  }

  // ---- hexadecimal ----------------------------------------------------------------------

  function HexDigit(n: int): byte
    requires 0 <= n < 16
  {
    if n < 10 then '0' as int + n else 'a' as int + n - 10
  }

  predicate LowerHex(b: byte)
  {
    '0' as int <= b <= '9' as int || 'a' as int <= b <= 'f' as int
  }

  function HexValue(b: byte): (n: int)
    requires LowerHex(b)
    ensures 0 <= n < 16
  {
    if b <= '9' as int then b - '0' as int else b - 'a' as int + 10
  }

  function Hex(bytes: seq<byte>): (s: seq<byte>)
    ensures |s| == 2 * |bytes|
    ensures forall i :: 0 <= i < |s| ==> LowerHex(s[i])
  {
    if bytes == [] then [] else [HexDigit(bytes[0] / 16), HexDigit(bytes[0] % 16)] + Hex(bytes[1..])
  }

  function Unhex(s: seq<byte>): (bytes: seq<byte>)
    requires |s| % 2 == 0 && forall i :: 0 <= i < |s| ==> LowerHex(s[i])
    ensures 2 * |bytes| == |s|
  {
    if s == [] then [] else [HexValue(s[0]) * 16 + HexValue(s[1])] + Unhex(s[2..])
  }

  lemma {:induction false} UnhexHex(bytes: seq<byte>)
    ensures Unhex(Hex(bytes)) == bytes
  {
    if bytes != [] {
      assert Hex(bytes)[2..] == Hex(bytes[1..]);
      UnhexHex(bytes[1..]);
      assert bytes == [bytes[0]] + bytes[1..];
    }
  }

  lemma HexCons(b: byte, bytes: seq<byte>)
    ensures Hex([b] + bytes) == [HexDigit(b / 16), HexDigit(b % 16)] + Hex(bytes)
  {
    assert ([b] + bytes)[1..] == bytes;
  }

  lemma DigitRoundTrip(hi: byte, lo: byte)
    requires LowerHex(hi) && LowerHex(lo)
    ensures var b := HexValue(hi) * 16 + HexValue(lo);
      HexDigit(b / 16) == hi && HexDigit(b % 16) == lo
  {
  }

  lemma {:induction false} HexUnhex(s: seq<byte>)
    requires |s| % 2 == 0 && forall i :: 0 <= i < |s| ==> LowerHex(s[i])
    ensures Hex(Unhex(s)) == s
  {
    hide Hex, HexDigit, HexValue, LowerHex;
    if s == [] {
      assert |Hex([])| == 0;
    } else {
      var rest := s[2..];
      HexUnhex(rest);
      HexCons(HexValue(s[0]) * 16 + HexValue(s[1]), Unhex(rest));
      DigitRoundTrip(s[0], s[1]);
      assert s == [s[0], s[1]] + rest;
    }
  }

  /** Byte `i` is spelled by the digits at `2 * i` and `2 * i + 1`, the high one first. */
  lemma {:induction false} HexAt(bytes: seq<byte>, i: nat)
    requires i < |bytes|
    ensures var digits := Ascii("0123456789abcdef");
      Hex(bytes)[2 * i] == digits[bytes[i] / 16] && Hex(bytes)[2 * i + 1] == digits[bytes[i] % 16]
  {
    if i == 0 {
      DigitSpelled(bytes[0] / 16);
      DigitSpelled(bytes[0] % 16);
    } else {
      HexAt(bytes[1..], i - 1);
    }
  }

  lemma DigitSpelled(n: nat)
    requires n < 16
    ensures HexDigit(n) == Ascii("0123456789abcdef")[n]
  {
    var digits := "0123456789abcdef";
    assert n < 10 ==> digits[n] as int == '0' as int + n;
    assert n >= 10 ==> digits[n] as int == 'a' as int + n - 10;
  }

  // ---- printing ---------------------------------------------------------------------------

  function BtihTag(): seq<byte> { Ascii("btih:") }
  function BtmhTag(): seq<byte> { Ascii("btmh:") }
  function HybridTag(): seq<byte> { Ascii("hybrid:btih:") }
  function Separator(): seq<byte> { Ascii(":btmh:") }

  /** `Display for TorrentRef`. */
  function Print(r: TorrentRef): (s: seq<byte>)
    ensures |s| < 256
  {
    match r
    case Btih(h) => BtihTag() + Hex(h)
    case BtmhRef(m) => BtmhTag() + Hex(m)
    case VerifiedHybrid(h, m) => HybridTag() + (Hex(h) + Separator() + Hex(m))
  }

  // ---- parsing ----------------------------------------------------------------------------

  datatype ParseError = BadBtih | BadBtmh | MalformedHybrid | UnknownKind

  /** `parse_normalized_btih`. */
  function ParseBtih(s: seq<byte>): Result<Bytes20, ParseError>
  {
    if |s| != 40 || exists i :: 0 <= i < |s| && !LowerHex(s[i]) then Err(BadBtih) else Ok(Unhex(s))
  }

  /** `FromStr for Btmh`. */
  function ParseBtmh(s: seq<byte>): Result<Btmh, ParseError>
  {
    if |s| != 68 || exists i :: 0 <= i < |s| && !LowerHex(s[i]) then Err(BadBtmh)
    else
      var bytes := Unhex(s);
      if bytes[..2] != MULTIHASH then Err(BadBtmh) else Ok(bytes)
  }

  /** `split_once`: around the first occurrence of `sep`. */
  function SplitOnce(s: seq<byte>, sep: seq<byte>): (r: Option<(seq<byte>, seq<byte>)>)
    ensures r.Some? ==> s == r.value.0 + sep + r.value.1
  {
    if sep <= s then Some(([], s[|sep|..]))
    else if s == [] then None
    else
      match SplitOnce(s[1..], sep)
      case None => None
      case Some((before, after)) => Some(([s[0]] + before, after))
  }

  /** `FromStr for TorrentRef`. */
  function Parse(s: seq<byte>): Result<TorrentRef, ParseError>
  {
    if BtihTag() <= s then
      var h :- ParseBtih(s[5..]);
      Ok(Btih(h))
    else if BtmhTag() <= s then
      var m :- ParseBtmh(s[5..]);
      Ok(BtmhRef(m))
    else if HybridTag() <= s then
      match SplitOnce(s[12..], Separator())
      case None => Err(MalformedHybrid)
      case Some((before, after)) =>
        var h :- ParseBtih(before);
        var m :- ParseBtmh(after);
        Ok(VerifiedHybrid(h, m))
    else Err(UnknownKind)
  }

  lemma {:induction false} SplitAfterHex(before: seq<byte>, sep: seq<byte>, after: seq<byte>)
    requires sep != [] && !LowerHex(sep[0])
    requires forall i :: 0 <= i < |before| ==> LowerHex(before[i])
    ensures SplitOnce(before + sep + after, sep) == Some((before, after))
  {
    var s := before + sep + after;
    if before == [] {
      assert s == sep + after;
    } else {
      assert s[0] == before[0] && s[1..] == before[1..] + sep + after;
      SplitAfterHex(before[1..], sep, after);
      assert before == [before[0]] + before[1..];
    }
  }

  lemma ParseHexes(h: Bytes20, m: Btmh)
    ensures ParseBtih(Hex(h)) == Ok(h) && ParseBtmh(Hex(m)) == Ok(m)
  {
    UnhexHex(h);
    UnhexHex(m);
  }

  /** Parsing a printed reference gives it back. */
  lemma ParsePrint(r: TorrentRef)
    ensures Parse(Print(r)) == Ok(r)
  {
    hide ParseBtih, ParseBtmh, SplitOnce, Hex;
    var s := Print(r);
    match r {
      case Btih(h) =>
        ParseHexes(h, MULTIHASH + seq(32, i => 0));
        assert s[5..] == Hex(h);
      case BtmhRef(m) =>
        ParseHexes(seq(20, i => 0), m);
        assert s[5..] == Hex(m) && s[2] == 'm' as int;
      case VerifiedHybrid(h, m) =>
        ParseHexes(h, m);
        assert s[0] == 'h' as int;
        assert s[12..] == Hex(h) + Separator() + Hex(m);
        SplitAfterHex(Hex(h), Separator(), Hex(m));
    }
  }

  /** Printing what was parsed gives the text back: every reference has one spelling. */
  lemma PrintParse(s: seq<byte>)
    requires Parse(s).Ok?
    ensures Print(Parse(s).value) == s
  {
    match Parse(s).value {
      case Btih(h) =>
        HexUnhex(s[5..]);
        assert s == BtihTag() + s[5..];
      case BtmhRef(m) =>
        HexUnhex(s[5..]);
        assert s == BtmhTag() + s[5..];
      case VerifiedHybrid(h, m) =>
        var parts := SplitOnce(s[12..], Separator()).value;
        HexUnhex(parts.0);
        HexUnhex(parts.1);
        assert s == HybridTag() + s[12..];
    }
  }

  lemma PrintInjective(x: TorrentRef, y: TorrentRef)
    requires Print(x) == Print(y)
    ensures x == y
  {
    ParsePrint(x);
    ParsePrint(y);
  }

  // ---- spelling ---------------------------------------------------------------------------

  /** The three printed forms. */
  lemma PrintSpelling(r: TorrentRef)
    ensures Print(r) ==
      match r
      case Btih(h) => Ascii("btih:") + Hex(h)
      case BtmhRef(m) => Ascii("btmh:") + Hex(m)
      case VerifiedHybrid(h, m) => Ascii("hybrid:btih:") + Hex(h) + Ascii(":btmh:") + Hex(m)
  {
    hide Hex, Ascii;
  }

  predicate SplitsAt(s: seq<byte>, sep: seq<byte>, before: seq<byte>, after: seq<byte>)
  {
    s == before + sep + after && forall i :: 0 <= i < |before| ==> !(sep <= s[i..])
  }

  /** `split_once` splits around the first occurrence, and fails only without one. */
  lemma {:induction false} SplitOnceMeaning(s: seq<byte>, sep: seq<byte>, before: seq<byte>, after: seq<byte>)
    ensures SplitOnce(s, sep) == Some((before, after)) <==> SplitsAt(s, sep, before, after)
  {
    if sep <= s {
      assert s[0..] == s;
      assert SplitsAt(s, sep, before, after) ==> before == [];
    } else if before == [] {
      assert SplitsAt(s, sep, before, after) ==> s == sep + after;
    } else if s != [] {
      SplitOnceMeaning(s[1..], sep, before[1..], after);
      SplitsLater(s, sep, before, after);
      hide SplitsAt;
      assert before == [before[0]] + before[1..];
    }
  }

  lemma SplitsLater(s: seq<byte>, sep: seq<byte>, before: seq<byte>, after: seq<byte>)
    requires s != [] && before != [] && !(sep <= s)
    ensures SplitsAt(s, sep, before, after) <==> before[0] == s[0] && SplitsAt(s[1..], sep, before[1..], after)
  {
    assert s[0..] == s && s == [s[0]] + s[1..] && before == [before[0]] + before[1..];
    assert forall i :: 0 < i <= |s| ==> s[i..] == s[1..][i - 1..];
    if before[0] == s[0] && SplitsAt(s[1..], sep, before[1..], after) {
      forall i | 0 <= i < |before| ensures !(sep <= s[i..]) {
        if i > 0 { assert !(sep <= s[1..][i - 1..]); }
      }
    }
    if SplitsAt(s, sep, before, after) {
      assert (before + sep + after)[1..] == before[1..] + sep + after;
      forall i | 0 <= i < |before| - 1 ensures !(sep <= s[1..][i..]) {
        assert s[1..][i..] == s[i + 1..];
      }
    }
  }

  predicate HexText(s: seq<byte>, length: nat)
  {
    |s| == length && forall i :: 0 <= i < |s| ==> LowerHex(s[i])
  }

  predicate MultihashText(s: seq<byte>)
  {
    HexText(s, 68) && s[..4] == Ascii("1220")
  }

  lemma BtmhText(s: seq<byte>)
    ensures ParseBtmh(s).Ok? <==> MultihashText(s)
  {
    if HexText(s, 68) {
      var bytes := Unhex(s);
      assert bytes[0] == HexValue(s[0]) * 16 + HexValue(s[1]);
      assert bytes[1] == Unhex(s[2..])[0] == HexValue(s[2]) * 16 + HexValue(s[3]);
      assert bytes[..2] == [bytes[0], bytes[1]] && s[..4] == [s[0], s[1], s[2], s[3]];
      assert Ascii("1220") == ['1' as int, '2' as int, '2' as int, '0' as int];
    }
  }

  predicate HybridText(s: seq<byte>, before: seq<byte>, after: seq<byte>)
  {
    Ascii("hybrid:btih:") <= s && SplitsAt(s[12..], Ascii(":btmh:"), before, after)
  }

  /** Each refusal of the parser, with the texts that get it. */
  ghost predicate Refuses(s: seq<byte>, e: ParseError)
  {
    match e
    case UnknownKind => !(Ascii("btih:") <= s) && !(Ascii("btmh:") <= s) && !(Ascii("hybrid:btih:") <= s)
    case MalformedHybrid => Ascii("hybrid:btih:") <= s && forall before, after :: !HybridText(s, before, after)
    case BadBtih =>
      || (Ascii("btih:") <= s && !HexText(s[5..], 40))
      || exists before, after :: HybridText(s, before, after) && !HexText(before, 40)
    case BadBtmh =>
      || (Ascii("btmh:") <= s && !MultihashText(s[5..]))
      || exists before, after :: HybridText(s, before, after) && HexText(before, 40) && !MultihashText(after)
  }

  lemma TagsDiffer(s: seq<byte>)
    ensures BtihTag() <= s ==> !(BtmhTag() <= s) && !(HybridTag() <= s)
    ensures BtmhTag() <= s ==> !(HybridTag() <= s)
  {
    if BtihTag() <= s { assert s[2] == 'i' as int; }
    if BtmhTag() <= s { assert s[2] == 'm' as int; }
    if HybridTag() <= s { assert s[2] == 'b' as int; }
  }

  lemma ParseRefuses(s: seq<byte>, e: ParseError)
    ensures Parse(s) == Err(e) <==> Refuses(s, e)
  {
    TagsDiffer(s);
    assert BtihTag() == Ascii("btih:") && BtmhTag() == Ascii("btmh:");
    assert HybridTag() == Ascii("hybrid:btih:") && Separator() == Ascii(":btmh:");
    hide SplitOnce, SplitsAt, MultihashText, Unhex, Ascii, ParseBtmh;
    if BtmhTag() <= s { BtmhText(s[5..]); }
    if HybridTag() <= s {
      forall before, after
        ensures SplitOnce(s[12..], Separator()) == Some((before, after)) <==> HybridText(s, before, after)
      {
        SplitOnceMeaning(s[12..], Separator(), before, after);
      }
      var split := SplitOnce(s[12..], Separator());
      if split.Some? {
        BtmhText(split.value.1);
        assert HybridText(s, split.value.0, split.value.1);
      }
    }
  }
}

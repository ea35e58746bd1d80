/** HTTP byte ranges: the gateway's parser against section 14.1.2 of RFC 9110. */
module ByteRange {
  import opened Bytes
  import opened Outcomes
  import opened TorrentReference

  // ---- decimal numbers ------------------------------------------------------------------

  const ZERO: byte := '0' as int
  const PLUS: byte := '+' as int
  const DASH: byte := '-' as int
  const COMMA: byte := ',' as int

  predicate Digit(b: byte)
  {
    ZERO <= b <= ZERO + 9
  }

  /** One or more digits. */
  predicate Digits(s: seq<byte>)
  {
    s != [] && forall i :: 0 <= i < |s| ==> Digit(s[i])
  }

  function Number(s: seq<byte>): nat
    requires forall i :: 0 <= i < |s| ==> Digit(s[i])
  {
    if s == [] then 0
    else
      assert Digit(s[|s| - 1]);
      Number(s[..|s| - 1]) * 10 + (s[|s| - 1] - ZERO)
  }

  function Decimal(n: nat): (s: seq<byte>)
    ensures Digits(s)
  {
    if n < 10 then [ZERO + n] else Decimal(n / 10) + [ZERO + n % 10]
  }

  lemma {:induction false} NumberDecimal(n: nat)
    ensures Number(Decimal(n)) == n
  {
    if n < 10 {
      assert Number([ZERO + n][..0]) == 0;
    } else {
      NumberDecimal(n / 10);
      var s := Decimal(n);
      assert s[..|s| - 1] == Decimal(n / 10);
    }
  }

  function Unsigned(s: seq<byte>): seq<byte>
  {
    if s != [] && s[0] == PLUS then s[1..] else s
  }

  /** `str::parse::<u64>`: an optional plus sign, digits, and no overflow. */
  function ParseU64(s: seq<byte>): Option<u64>
  {
    var digits := Unsigned(s);
    if Digits(digits) && Number(digits) < U64_LIMIT then Some(Number(digits)) else None
  }

  // ---- the gateway's parser ----------------------------------------------------------------

  datatype Range = Range(start: u64, end: u64, partial: bool)

  datatype RangeError =
    | EmptyFile | InvalidHeader | OtherUnit | MultipleRanges | Malformed | BadNumber | ZeroSuffix | Outside

  function Unit(): (u: seq<byte>) ensures |u| == 6 { Ascii("bytes=") }

  /** `HeaderValue::to_str`: visible ASCII and tabs. */
  predicate Visible(value: seq<byte>)
  {
    forall i :: 0 <= i < |value| ==> 32 <= value[i] < 127 || value[i] == 9
  }

  function SaturatingSub(a: u64, b: u64): u64
  {
    if a < b then 0 else a - b
  }

  function Min(a: u64, b: u64): u64
  {
    if a <= b then a else b
  }

  /** The two positions a single range names, before the check against the file. */
  function Positions(start: seq<byte>, end: seq<byte>, length: u64): Result<(u64, u64), RangeError>
    requires length > 0
  {
    if start == [] then
      var suffix := ParseU64(end);
      if suffix.None? then Err(BadNumber)
      else if suffix.value == 0 then Err(ZeroSuffix)
      else Ok((SaturatingSub(length, suffix.value), length - 1))
    else
      var first := ParseU64(start);
      var last := if end == [] then Some(length - 1) else ParseU64(end);
      if first.None? || last.None? then Err(BadNumber) else Ok((first.value, Min(last.value, length - 1)))
  }

  /** `parse_range`. */
  function ParseRange(header: Option<seq<byte>>, length: u64): Result<Range, RangeError>
  {
    if length == 0 then Err(EmptyFile)
    else if header.None? then Ok(Range(0, length - 1, false))
    else if !Visible(header.value) then Err(InvalidHeader)
    else if !StartsWith(header.value, Unit()) then Err(OtherUnit)
    else
      var value := header.value[6..];
      if COMMA in value then Err(MultipleRanges)
      else match SplitOnce(value, [DASH])
        case None => Err(Malformed)
        case Some((first, last)) =>
          var (start, end) :- Positions(first, last, length);
          if start >= length || end < start then Err(Outside) else Ok(Range(start, end, true))
  }

  // ---- section 14.1.2 of RFC 9110 ------------------------------------------------------------

  datatype RangeSpec = Closed(first: nat, last: nat) | From(first: nat) | Suffix(size: nat)

  /** `text` spells a single range: first-pos "-" [ last-pos ], or "-" suffix-length. */
  ghost predicate Spells(text: seq<byte>, spec: RangeSpec)
  {
    match spec
    case Closed(first, last) =>
      exists a, b :: Digits(a) && Digits(b) && text == a + [DASH] + b && Number(a) == first && Number(b) == last
    case From(first) => exists a :: Digits(a) && text == a + [DASH] && Number(a) == first
    case Suffix(size) => exists b :: Digits(b) && text == [DASH] + b && Number(b) == size
  }

  function Lower(b: byte): byte
  {
    if 'A' as int <= b <= 'Z' as int then b + 32 else b
  }

  /** A Range header of one range of bytes: unit names are case-insensitive (section 14.1). */
  ghost predicate StandardHeader(value: seq<byte>, spec: RangeSpec)
  {
    && |value| >= 6
    && (forall i :: 0 <= i < 6 ==> Lower(value[i]) == Unit()[i])
    && Spells(value[6..], spec)
  }

  /** The bytes a range selects from a representation of `length` bytes, when it is valid and
      satisfiable: positions are inclusive, an end past the file is clipped to its last byte,
      and a suffix longer than the file is the whole file. */
  function Selected(spec: RangeSpec, length: nat): Option<(nat, nat)>
    requires length > 0
  {
    match spec
    case Closed(first, last) =>
      if first <= last && first < length then Some((first, if last < length then last else length - 1)) else None
    case From(first) => if first < length then Some((first, length - 1)) else None
    case Suffix(size) =>
      if size > 0 then Some((if size < length then length - size else 0, length - 1)) else None
  }

  /** Every number of the range fits a 64-bit word. */
  predicate Fits(spec: RangeSpec)
  {
    match spec
    case Closed(first, last) => first < U64_LIMIT && last < U64_LIMIT
    case From(first) => first < U64_LIMIT
    case Suffix(size) => size < U64_LIMIT
  }

  // ---- the parser meets the standard --------------------------------------------------------------

  /** An accepted range lies inside the file, and its response length needs no more than 64 bits. */
  lemma AcceptedIsInside(header: Option<seq<byte>>, length: u64)
    ensures var r := ParseRange(header, length);
      r.Ok? ==>
        && r.value.start <= r.value.end < length && r.value.end - r.value.start + 1 <= length
        && (header.None? <==> !r.value.partial)
  {
    hide SplitOnce, ParseU64;
  }

  // ---- what the parser accepts ---------------------------------------------------------------------

  predicate SignedDigits(s: seq<byte>)
  {
    Digits(Unsigned(s))
  }

  /** As `Spells`, but each number may carry a plus sign. */
  ghost predicate SpellsSigned(text: seq<byte>, spec: RangeSpec)
  {
    match spec
    case Closed(first, last) =>
      exists a, b :: SignedDigits(a) && SignedDigits(b) && text == a + [DASH] + b
                     && Number(Unsigned(a)) == first && Number(Unsigned(b)) == last
    case From(first) => exists a :: SignedDigits(a) && text == a + [DASH] && Number(Unsigned(a)) == first
    case Suffix(size) => exists b :: SignedDigits(b) && text == [DASH] + b && Number(Unsigned(b)) == size
  }

  lemma SignedCharacters(s: seq<byte>)
    requires SignedDigits(s)
    ensures s != [] && DASH !in s && COMMA !in s
    ensures PLUS !in s <==> Unsigned(s) == s
    ensures forall i :: 0 <= i < |s| ==> 32 <= s[i] < 127
  {
    if s[0] == PLUS {
      assert s == [PLUS] + s[1..];
      assert PLUS in s && s[1..] != s;
    }
  }

  lemma {:induction false} SplitAtFirst(a: seq<byte>, b: seq<byte>)
    requires DASH !in a
    ensures SplitOnce(a + [DASH] + b, [DASH]) == Some((a, b))
  {
    var s := a + [DASH] + b;
    if a == [] {
      assert s == [DASH] + b;
    } else {
      assert a[0] in a && s[0] == a[0] && s[1..] == a[1..] + [DASH] + b;
      SplitAtFirst(a[1..], b);
      assert a == [a[0]] + a[1..];
    }
  }

  /** `text` is a first part, a dash and a second part that make up `spec`. */
  predicate MadeOf(a: seq<byte>, b: seq<byte>, spec: RangeSpec)
  {
    && (a == [] || SignedDigits(a)) && (b == [] || SignedDigits(b)) && (a == [] ==> b != [])
    && spec == (if a == [] then Suffix(Number(Unsigned(b)))
                else if b == [] then From(Number(Unsigned(a)))
                else Closed(Number(Unsigned(a)), Number(Unsigned(b))))
  }

  lemma SignedPieces(text: seq<byte>, spec: RangeSpec) returns (a: seq<byte>, b: seq<byte>)
    requires SpellsSigned(text, spec)
    ensures text == a + [DASH] + b && MadeOf(a, b, spec)
  {
    hide Number;
    match spec {
      case Closed(first, last) =>
        a, b :| SignedDigits(a) && SignedDigits(b) && text == a + [DASH] + b
                && Number(Unsigned(a)) == first && Number(Unsigned(b)) == last;
        SignedCharacters(a);
        SignedCharacters(b);
      case From(first) =>
        a :| SignedDigits(a) && text == a + [DASH] && Number(Unsigned(a)) == first;
        b := [];
        SignedCharacters(a);
      case Suffix(size) =>
        b :| SignedDigits(b) && text == [DASH] + b && Number(Unsigned(b)) == size;
        a := [];
        SignedCharacters(b);
    }
  }

  lemma MadeSpells(a: seq<byte>, b: seq<byte>, spec: RangeSpec)
    requires MadeOf(a, b, spec)
    ensures SpellsSigned(a + [DASH] + b, spec)
  {
    hide Number, Digits, Unsigned;
    if a == [] {
      assert a + [DASH] + b == [DASH] + b;
    } else if b == [] {
      assert a + [DASH] + b == a + [DASH];
    }
  }

  lemma MadeIsVisible(a: seq<byte>, b: seq<byte>, spec: RangeSpec)
    requires MadeOf(a, b, spec)
    ensures DASH !in a && COMMA !in a + [DASH] + b
    ensures Visible(Unit() + (a + [DASH] + b))
    ensures PLUS !in a + [DASH] + b <==> Unsigned(a) == a && Unsigned(b) == b
  {
    hide Number, Digits;
    if a != [] { SignedCharacters(a); }
    if b != [] { SignedCharacters(b); }
  }

  lemma PositionsMeaning(a: seq<byte>, b: seq<byte>, spec: RangeSpec, length: u64)
    requires length > 0 && MadeOf(a, b, spec)
    ensures var p := Positions(a, b, length);
      (p.Ok? && p.value.0 < length && p.value.0 <= p.value.1) <==> (Fits(spec) && Selected(spec, length).Some?)
    ensures Fits(spec) && Selected(spec, length).Some? ==> Positions(a, b, length) == Ok(Selected(spec, length).value)
  {
    hide Number, Digits, Unsigned;
  }

  lemma ParsedPositions(a: seq<byte>, b: seq<byte>, length: u64) returns (spec: RangeSpec)
    requires length > 0 && Positions(a, b, length).Ok?
    ensures MadeOf(a, b, spec)
  {
    hide Number;
    spec := if a == [] then Suffix(Number(Unsigned(b)))
            else if b == [] then From(Number(Unsigned(a)))
            else Closed(Number(Unsigned(a)), Number(Unsigned(b)));
  }

  lemma SignedRangesParse(text: seq<byte>, spec: RangeSpec, length: u64)
    requires SpellsSigned(text, spec) && length > 0
    ensures ParseRange(Some(Unit() + text), length).Ok? <==> Fits(spec) && Selected(spec, length).Some?
    ensures Fits(spec) && Selected(spec, length).Some? ==>
              var (start, end) := Selected(spec, length).value;
              ParseRange(Some(Unit() + text), length) == Ok(Range(start, end, true))
  {
    hide SplitOnce, ParseU64, Positions, Visible, SpellsSigned, MadeOf, Fits, Selected;
    var a, b := SignedPieces(text, spec);
    MadeIsVisible(a, b, spec);
    SplitAtFirst(a, b);
    PositionsMeaning(a, b, spec, length);
    assert (Unit() + text)[6..] == text;
  }

  /** Exactly what the parser accepts, and the interval it answers: the ranges of the standard
      with the unit in lower case, numbers below 2^64, and each number optionally signed. */
  lemma ParserAccepts(value: seq<byte>, length: u64, start: u64, end: u64)
    requires length > 0
    ensures ParseRange(Some(value), length) == Ok(Range(start, end, true)) <==>
              exists spec ::
                Unit() <= value && SpellsSigned(value[6..], spec) && Fits(spec)
                && Selected(spec, length) == Some((start, end))
  {
    hide SplitOnce, ParseU64, Positions, Visible, SpellsSigned, MadeOf, Selected;
    if ParseRange(Some(value), length) == Ok(Range(start, end, true)) {
      var (a, b) := SplitOnce(value[6..], [DASH]).value;
      var spec := ParsedPositions(a, b, length);
      MadeSpells(a, b, spec);
      assert value == Unit() + value[6..];
      SignedRangesParse(value[6..], spec, length);
      var (first, last) := Selected(spec, length).value;
      assert first == start && last == end;
    }
    if spec :| (&& Unit() <= value && SpellsSigned(value[6..], spec) && Fits(spec)
                && Selected(spec, length) == Some((start, end))) {
      assert value == Unit() + value[6..];
      SignedRangesParse(value[6..], spec, length);
    }
  }

  // ---- what the parser refuses ---------------------------------------------------------------------

  predicate WordText(s: seq<byte>)
  {
    SignedDigits(s) && Number(Unsigned(s)) < 0x1_0000_0000_0000_0000
  }

  /** The text has a dash, `first` before the first one and `last` after it. */
  predicate Dashed(text: seq<byte>, first: seq<byte>, last: seq<byte>)
  {
    text == first + ['-' as int] + last && '-' as int !in first
  }

  lemma DashedSplit(text: seq<byte>, first: seq<byte>, last: seq<byte>)
    ensures SplitOnce(text, [DASH]) == Some((first, last)) <==> Dashed(text, first, last)
    ensures SplitOnce(text, [DASH]).None? <==> DASH !in text
  {
    SplitOnceMeaning(text, [DASH], first, last);
    if text == first + [DASH] + last {
      forall i | 0 <= i < |first| ensures [DASH] <= text[i..] <==> first[i] == DASH {
        assert text[i..][0] == first[i];
      }
    }
    if SplitOnce(text, [DASH]).Some? {
      var (a, b) := SplitOnce(text, [DASH]).value;
      assert text[|a|] == DASH;
    } else if DASH in text {
      var a, b := UpToDash(text);
      SplitAtFirst(a, b);
    }
  }

  lemma {:induction false} UpToDash(text: seq<byte>) returns (a: seq<byte>, b: seq<byte>)
    requires DASH in text
    ensures text == a + [DASH] + b && DASH !in a
  {
    if text[0] == DASH {
      a, b := [], text[1..];
    } else {
      a, b := UpToDash(text[1..]);
      a := [text[0]] + a;
    }
  }

  /** The two ends of the range, once the text is known to have a dash. */
  predicate EndsRefused(first: seq<byte>, last: seq<byte>, length: u64, e: RangeError)
  {
    match e
    case BadNumber =>
      if first == [] then !WordText(last) else !WordText(first) || (last != [] && !WordText(last))
    case ZeroSuffix => first == [] && WordText(last) && Number(Unsigned(last)) == 0
    case Outside =>
      && first != [] && WordText(first)
      && var start := Number(Unsigned(first));
      if last == [] then start >= length
      else WordText(last) && (start >= length || Number(Unsigned(last)) < start)
    case _ => false
  }

  lemma PositionsRefused(first: seq<byte>, last: seq<byte>, length: u64, e: RangeError)
    requires length > 0
    ensures EndsRefused(first, last, length, e) <==>
              match Positions(first, last, length)
              case Err(error) => e == error
              case Ok((start, end)) => e.Outside? && (start >= length || end < start)
  {
    hide Number, Digits, Unsigned;
  }

  /** Each refusal with the headers that get it, in the order of the checks. */
  ghost predicate Refuses(header: Option<seq<byte>>, length: u64, e: RangeError)
  {
    if length == 0 then e.EmptyFile?
    else
      && header.Some?
      && var value := header.value;
      if exists i :: 0 <= i < |value| && !(32 <= value[i] < 127 || value[i] == 9) then e.InvalidHeader?
      else if !(Ascii("bytes=") <= value) then e.OtherUnit?
      else if ',' as int in value[6..] then e.MultipleRanges?
      else if '-' as int !in value[6..] then e.Malformed?
      else exists first, last :: Dashed(value[6..], first, last) && EndsRefused(first, last, length, e)
  }

  lemma ParseRangeRefuses(header: Option<seq<byte>>, length: u64, e: RangeError)
    ensures ParseRange(header, length) == Err(e) <==> Refuses(header, length, e)
  {
    hide SplitOnce, Positions, EndsRefused, Dashed;
    if length > 0 && header.Some? && Unit() <= header.value {
      var text := header.value[6..];
      DashedSplit(text, [], []);
      forall first, last ensures SplitOnce(text, [DASH]) == Some((first, last)) <==> Dashed(text, first, last) {
        DashedSplit(text, first, last);
      }
      if SplitOnce(text, [DASH]).Some? {
        var (first, last) := SplitOnce(text, [DASH]).value;
        PositionsRefused(first, last, length, e);
        assert Dashed(text, first, last);
        assert Refuses(header, length, e) ==> e in [EmptyFile, InvalidHeader, OtherUnit, MultipleRanges, Malformed]
                                              || EndsRefused(first, last, length, e);
      }
    }
  }

  // ---- the parser against the standard ---------------------------------------------------------------

  /** The standard's spellings are the signed ones without a sign. */
  lemma SpellsMeaning(text: seq<byte>, spec: RangeSpec)
    ensures Spells(text, spec) <==> SpellsSigned(text, spec) && PLUS !in text
  {
    hide Number;
    if Spells(text, spec) {
      SpelledIsSigned(text, spec);
    }
    if SpellsSigned(text, spec) && PLUS !in text {
      var a, b := SignedPieces(text, spec);
      MadeIsVisible(a, b, spec);
      if a == [] { assert text == [DASH] + b; }
      if b == [] { assert text == a + [DASH]; }
    }
  }

  lemma PlainDigits(s: seq<byte>)
    requires Digits(s)
    ensures Unsigned(s) == s && SignedDigits(s) && PLUS !in s
  {
  }

  lemma SpelledIsSigned(text: seq<byte>, spec: RangeSpec)
    requires Spells(text, spec)
    ensures SpellsSigned(text, spec) && PLUS !in text
  {
    hide Number;
    match spec {
      case Closed(first, last) =>
        var a, b :| Digits(a) && Digits(b) && text == a + [DASH] + b && Number(a) == first && Number(b) == last;
        PlainDigits(a);
        PlainDigits(b);
      case From(first) =>
        var a :| Digits(a) && text == a + [DASH] && Number(a) == first;
        PlainDigits(a);
      case Suffix(size) =>
        var b :| Digits(b) && text == [DASH] + b && Number(b) == size;
        PlainDigits(b);
    }
  }

  lemma UnitWithoutPlus(value: seq<byte>)
    requires |value| >= 6 && forall i :: 0 <= i < 6 ==> Lower(value[i]) == Unit()[i]
    ensures PLUS in value <==> PLUS in value[6..]
  {
    assert value == value[..6] + value[6..];
    forall i | 0 <= i < 6 ensures value[..6][i] != PLUS {
      assert value[..6][i] == value[i] && Unit()[i] > 60;
    }
  }

  lemma LowerCaseUnit(value: seq<byte>)
    requires Unit() <= value
    ensures |value| >= 6 && forall i :: 0 <= i < 6 ==> Lower(value[i]) == Unit()[i]
  {
    assert forall i :: 0 <= i < 6 ==> value[i] == Unit()[i];
  }

  /** A range the standard defines is answered as it says if and only if its unit is spelled in
      lower case and its numbers fit; otherwise it is refused. */
  lemma StandardRangesParse(value: seq<byte>, spec: RangeSpec, length: u64)
    requires StandardHeader(value, spec) && length > 0
    ensures ParseRange(Some(value), length).Ok? <==> Unit() <= value && Fits(spec) && Selected(spec, length).Some?
    ensures Unit() <= value && Fits(spec) && Selected(spec, length).Some? ==>
              var (start, end) := Selected(spec, length).value;
              ParseRange(Some(value), length) == Ok(Range(start, end, true))
  {
    hide SplitOnce, Positions, Visible, Spells, Fits, Selected;
    if Unit() <= value {
      SpellsMeaning(value[6..], spec);
      assert value == Unit() + value[6..];
      SignedRangesParse(value[6..], spec, length);
    }
  }

  /** Without a sign, exactly the satisfiable ranges of the standard whose unit is in lower case
      and whose numbers fit are accepted, and answered with the interval the standard selects. */
  lemma ParseRangeMeaning(value: seq<byte>, length: u64, start: u64, end: u64)
    requires length > 0
    ensures (ParseRange(Some(value), length) == Ok(Range(start, end, true)) && PLUS !in value) <==>
              exists spec ::
                StandardHeader(value, spec) && Unit() <= value && Fits(spec)
                && Selected(spec, length) == Some((start, end))
  {
    hide ParseRange, Spells, SpellsSigned, Selected, Fits;
    ParserAccepts(value, length, start, end);
    if Unit() <= value {
      LowerCaseUnit(value);
      UnitWithoutPlus(value);
      forall spec ensures Spells(value[6..], spec) <==> SpellsSigned(value[6..], spec) && PLUS !in value {
        SpellsMeaning(value[6..], spec);
      }
      if spec :| SpellsSigned(value[6..], spec) && Fits(spec) && Selected(spec, length) == Some((start, end)) {
        assert PLUS !in value ==> StandardHeader(value, spec);
      }
    }
  }

  ghost predicate StandardSelects(value: seq<byte>, length: u64, start: u64, end: u64)
    requires length > 0
  {
    exists spec :: StandardHeader(value, spec) && Selected(spec, length) == Some((start, end))
  }

  /** Parser and standard answer this header alike: with the same interval, or both with none. */
  ghost predicate Agrees(value: seq<byte>, length: u64)
    requires length > 0
  {
    forall start: u64, end: u64 ::
      ParseRange(Some(value), length) == Ok(Range(start, end, true)) <==> StandardSelects(value, length, start, end)
  }

  /** The standard gives this header an interval that the parser withholds. */
  ghost predicate Withheld(value: seq<byte>, length: u64)
    requires length > 0
  {
    exists spec :: StandardHeader(value, spec) && Selected(spec, length).Some? && !(Unit() <= value && Fits(spec))
  }

  /** A number of this header carries a plus sign; without the signs it would spell a range that is
      satisfiable, with numbers that fit. */
  ghost predicate Signed(value: seq<byte>, length: u64)
    requires length > 0
  {
    && Unit() <= value && PLUS in value
    && exists spec :: SpellsSigned(value[6..], spec) && Fits(spec) && Selected(spec, length).Some?
  }

  lemma SelectedInside(spec: RangeSpec, length: u64)
    requires length > 0 && Selected(spec, length).Some?
    ensures Selected(spec, length).value.0 <= Selected(spec, length).value.1 < length
  {
  }

  /** Parser and standard part exactly on two kinds of header: ranges that would be satisfiable but
      for a plus sign, which the parser lets through, and satisfiable ranges whose unit is not in
      lower case or whose numbers do not fit, which it refuses. */
  lemma AgreementExactly(value: seq<byte>, length: u64)
    requires length > 0
    ensures Agrees(value, length) <==> !Signed(value, length) && !Withheld(value, length)
  {
    hide ParseRange, StandardHeader, Selected, Fits, SpellsSigned, Unit;
    if Signed(value, length) {
      var spec :| SpellsSigned(value[6..], spec) && Fits(spec) && Selected(spec, length).Some?;
      var (start, end) := Selected(spec, length).value;
      SelectedInside(spec, length);
      ParserAccepts(value, length, start, end);
      StandardWithoutPlus(value);
      assert !StandardSelects(value, length, start, end);
    } else if Withheld(value, length) {
      var spec :| StandardHeader(value, spec) && Selected(spec, length).Some? && !(Unit() <= value && Fits(spec));
      var (start, end) := Selected(spec, length).value;
      SelectedInside(spec, length);
      StandardRangesParse(value, spec, length);
      assert StandardSelects(value, length, start, end);
    } else {
      forall start: u64, end: u64
        ensures ParseRange(Some(value), length) == Ok(Range(start, end, true)) <==>
                StandardSelects(value, length, start, end)
      {
        ParseRangeMeaning(value, length, start, end);
        ParserAccepts(value, length, start, end);
      }
    }
  }

  lemma StandardWithoutPlus(value: seq<byte>)
    ensures PLUS in value ==> forall spec :: !StandardHeader(value, spec)
  {
    hide Spells;
    forall spec | StandardHeader(value, spec) ensures PLUS !in value {
      SpellsMeaning(value[6..], spec);
      UnitWithoutPlus(value);
    }
  }

  /** Printing an interval of the file as a range and parsing it gives the interval back. */
  lemma PrintedRangeParses(start: u64, end: u64, length: u64)
    requires start <= end < length
    ensures ParseRange(Some(Unit() + (Decimal(start) + [DASH] + Decimal(end))), length) == Ok(Range(start, end, true))
  {
    hide ParseRange;
    PrintedSpells(start, end);
    SpellsMeaning(Decimal(start) + [DASH] + Decimal(end), Closed(start, end));
    SignedRangesParse(Decimal(start) + [DASH] + Decimal(end), Closed(start, end), length);
  }

  lemma PrintedSpells(first: nat, last: nat)
    ensures Spells(Decimal(first) + [DASH] + Decimal(last), Closed(first, last))
  {
    NumberDecimal(first);
    NumberDecimal(last);
  }

  // ---- headers on which they part ----------------------------------------------------------------------

  lemma UnitInFront(value: seq<byte>)
    requires |value| >= 6
    ensures Unit() <= value <==> value[..6] == Unit()
  {
  }

  /** Any other spelling of the unit is refused although the standard selects the interval, as
      in `BYTES=0-1`. */
  lemma OtherCaseRefused(unit: seq<byte>, first: nat, last: nat, length: u64)
    requires |unit| == 6 && unit != Unit() && forall i :: 0 <= i < 6 ==> Lower(unit[i]) == Unit()[i]
    requires first <= last && first < length
    ensures var value := unit + (Decimal(first) + [DASH] + Decimal(last));
      && StandardSelects(value, length, first, if last < length then last else length - 1)
      && ParseRange(Some(value), length).Err? && Withheld(value, length)
  {
    hide ParseRange, Spells;
    var value := unit + (Decimal(first) + [DASH] + Decimal(last));
    PrintedSpells(first, last);
    assert value[6..] == Decimal(first) + [DASH] + Decimal(last) && value[..6] == unit;
    assert forall i :: 0 <= i < 6 ==> value[i] == unit[i];
    assert StandardHeader(value, Closed(first, last));
    UnitInFront(value);
    StandardRangesParse(value, Closed(first, last), length);
  }

  lemma UpperCaseUnitRefused()
    ensures ParseRange(Some(Ascii("BYTES=0-1")), 10).Err? && StandardSelects(Ascii("BYTES=0-1"), 10, 0, 1)
  {
    hide ParseRange, StandardSelects;
    assert Decimal(0) == [ZERO] && Decimal(1) == [ZERO + 1];
    assert Ascii("BYTES=0-1") == Ascii("BYTES=") + (Decimal(0) + [DASH] + Decimal(1));
    assert Ascii("BYTES=")[0] != Unit()[0];
    OtherCaseRefused(Ascii("BYTES="), 0, 1, 10);
  }

  /** A last position of 2^64 or more, as in `bytes=0-18446744073709551616`, is refused where the
      standard clips it to the end of the file. */
  lemma LargeNumberRefused(first: nat, last: nat, length: u64)
    requires first < length && last >= U64_LIMIT
    ensures var value := Unit() + (Decimal(first) + [DASH] + Decimal(last));
      && StandardSelects(value, length, first, length - 1)
      && ParseRange(Some(value), length).Err? && Withheld(value, length)
  {
    hide ParseRange, Spells;
    var value := Unit() + (Decimal(first) + [DASH] + Decimal(last));
    PrintedSpells(first, last);
    LowerCaseUnit(value);
    assert value[6..] == Decimal(first) + [DASH] + Decimal(last);
    assert StandardHeader(value, Closed(first, last));
    StandardRangesParse(value, Closed(first, last), length);
  }

  lemma FourMoreDigits(n: nat, a: nat, b: nat, c: nat, d: nat)
    requires n > 0 && a < 10 && b < 10 && c < 10 && d < 10
    ensures Decimal(n * 10000 + a * 1000 + b * 100 + c * 10 + d) ==
            Decimal(n) + [ZERO + a, ZERO + b, ZERO + c, ZERO + d]
  {
    var na, nb, nc := n * 10 + a, (n * 10 + a) * 10 + b, ((n * 10 + a) * 10 + b) * 10 + c;
    assert Decimal(na) == Decimal(n) + [ZERO + a];
    assert Decimal(nb) == Decimal(na) + [ZERO + b];
    assert Decimal(nc) == Decimal(nb) + [ZERO + c];
    assert Decimal(nc * 10 + d) == Decimal(nc) + [ZERO + d];
  }

  lemma FrontOfTwoToThe64(front: nat)
    requires front == 18446744
    ensures Decimal(front) == Ascii("1844") + Ascii("6744")
  {
    var head: nat := 1844;
    assert Decimal(head) == Ascii("1844");
    FourMoreDigits(head, 6, 7, 4, 4);
    assert Ascii("6744") == [ZERO + 6, ZERO + 7, ZERO + 4, ZERO + 4];
  }

  /** 2^64 in decimal. */
  lemma TwoToThe64(n: nat)
    requires n == U64_LIMIT
    ensures Decimal(n) == Ascii("1844") + Ascii("6744") + Ascii("0737") + Ascii("0955") + Ascii("1616")
  {
    hide Decimal;
    var front: nat := 18446744;
    FrontOfTwoToThe64(front);
    FourMoreDigits(front, 0, 7, 3, 7);
    var middle := front * 10000 + 737;
    FourMoreDigits(middle, 0, 9, 5, 5);
    var back := middle * 10000 + 955;
    FourMoreDigits(back, 1, 6, 1, 6);
    assert Ascii("0737") == [ZERO, ZERO + 7, ZERO + 3, ZERO + 7];
    assert Ascii("0955") == [ZERO, ZERO + 9, ZERO + 5, ZERO + 5];
    assert Ascii("1616") == [ZERO + 1, ZERO + 6, ZERO + 1, ZERO + 6];
  }

  lemma LargeHeader()
    ensures Ascii("bytes=0-18446744073709551616")
      == Unit() + (Ascii("0") + [DASH]
                   + (Ascii("1844") + Ascii("6744") + Ascii("0737") + Ascii("0955") + Ascii("1616")))
  {
  }

  lemma LargeNumberExample()
    ensures var value := Ascii("bytes=0-18446744073709551616");
      ParseRange(Some(value), 10).Err? && StandardSelects(value, 10, 0, 9)
  {
    hide ParseRange, StandardSelects, Decimal, Unit, Ascii;
    var n: nat := U64_LIMIT;
    TwoToThe64(n);
    SmallDecimal();
    LargeHeader();
    LargeNumberRefused(0, n, 10);
  }

  lemma SmallDecimal()
    ensures Decimal(0) == Ascii("0") && Decimal(1) == Ascii("1")
  {
  }

  lemma SignedSpells(first: nat, last: nat)
    ensures SpellsSigned([PLUS] + Decimal(first) + [DASH] + Decimal(last), Closed(first, last))
    ensures PLUS in Unit() + ([PLUS] + Decimal(first) + [DASH] + Decimal(last))
  {
    var a, b := [PLUS] + Decimal(first), Decimal(last);
    NumberDecimal(first);
    NumberDecimal(last);
    assert Unsigned(a) == Decimal(first);
    PlainDigits(b);
    assert (Unit() + (a + [DASH] + b))[6] == PLUS;
  }

  /** A plus sign is let through, as in `bytes=+1-2`, and the header answered with the interval
      the standard selects for the numbers without it. */
  lemma SignedRangeAccepted(start: u64, end: u64, length: u64)
    requires start <= end < length
    ensures var value := Unit() + ([PLUS] + Decimal(start) + [DASH] + Decimal(end));
      && ParseRange(Some(value), length) == Ok(Range(start, end, true))
      && (forall spec :: !StandardHeader(value, spec)) && !Agrees(value, length)
  {
    hide ParseRange, Agrees, StandardHeader, SpellsSigned, Withheld, Decimal, Unit;
    var text := [PLUS] + Decimal(start) + [DASH] + Decimal(end);
    SignedSpells(start, end);
    SignedRangesParse(text, Closed(start, end), length);
    StandardWithoutPlus(Unit() + text);
    AgreementExactly(Unit() + text, length);
  }

  // ---- the response ----------------------------------------------------------------------------------

  /** The body `stream_file` sends: seek to the start, take Content-Length bytes. */
  function Body(file: seq<byte>, r: Range): seq<byte>
    requires r.start <= r.end < |file|
  {
    file[r.start..][..r.end - r.start + 1]
  }

  /** The body is the selected slice of the file, as long as the header announces; without a
      Range header it is the whole file. */
  lemma BodyIsExact(header: Option<seq<byte>>, file: Blob)
    requires ParseRange(header, |file|).Ok?
    ensures var r := ParseRange(header, |file|).value;
      && r.start <= r.end < |file|
      && Body(file, r) == file[r.start..r.end + 1]
      && |Body(file, r)| == r.end - r.start + 1
      && (header.None? ==> Body(file, r) == file)
  {
    AcceptedIsInside(header, |file|);
  }
}

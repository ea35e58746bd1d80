/** Bytes, fixed-width big-endian integers, ASCII text and strict UTF-8. */
module Bytes {

  type byte = x: int | 0 <= x < 256

  /** 2^64: lengths, sizes, timestamps and identifiers are 64-bit words. */
  const U64_LIMIT: int := 0x1_0000_0000_0000_0000

  type u64 = x: int | 0 <= x < U64_LIMIT

  /** A string or vector whose length fits in a 64-bit word, as every Rust one does. */
  type Blob = s: seq<byte> | |s| < U64_LIMIT

  function Pow256(width: nat): (p: nat)
    ensures p >= 1
  {
    if width == 0 then 1 else 256 * Pow256(width - 1)
  }

  function BigEndian(n: nat, width: nat): (b: seq<byte>)
    ensures |b| == width
    decreases width
  {
    if width == 0 then [] else BigEndian(n / 256, width - 1) + [n % 256]
  }

  function FromBigEndian(b: seq<byte>): (n: nat)
    ensures n < Pow256(|b|)
  {
    if b == [] then 0 else FromBigEndian(b[..|b| - 1]) * 256 + b[|b| - 1]
  }

  lemma {:induction false} BigEndianRoundTrip(n: nat, width: nat)
    requires n < Pow256(width)
    ensures FromBigEndian(BigEndian(n, width)) == n
    decreases width
  {
    if width > 0 {
      var b := BigEndian(n, width);
      assert b[..|b| - 1] == BigEndian(n / 256, width - 1);
      BigEndianRoundTrip(n / 256, width - 1);
    }
  }

  lemma {:induction false} FromBigEndianRoundTrip(b: seq<byte>)
    ensures BigEndian(FromBigEndian(b), |b|) == b
  {
    if b != [] {
      var front := b[..|b| - 1];
      FromBigEndianRoundTrip(front);
      assert FromBigEndian(b) / 256 == FromBigEndian(front);
      assert front + [b[|b| - 1]] == b;
    }
  }

  lemma PowEight()
    ensures Pow256(8) == U64_LIMIT
  {
    assert Pow256(4) == 256 * 256 * 256 * 256;
    assert Pow256(8) == 256 * 256 * 256 * 256 * Pow256(4);
  }

  /** The eight big-endian bytes of a 64-bit word (`to_be_bytes`). */
  function U64Bytes(n: u64): (b: seq<byte>)
    ensures |b| == 8
  {
    BigEndian(n, 8)
  }

  /** `from_be_bytes`. */
  function U64FromBytes(b: seq<byte>): u64
    requires |b| == 8
  {
    PowEight();
    FromBigEndian(b)
  }

  lemma DivideTwice(n: nat, p: nat)
    requires p > 0
    ensures n / 256 / p == n / (256 * p)
  {
    var q, r := n / 256 / p, n / 256 % p;
    var rest := 256 * r + n % 256;
    assert n == 256 * (p * q + r) + n % 256 == (256 * p) * q + rest;
    assert r <= p - 1;
    Quotient(n, 256 * p, q, rest);
  }

  lemma Quotient(n: nat, d: nat, q: nat, r: nat)
    requires n == d * q + r && r < d
    ensures n / d == q
  {
    var k := n / d;
    assert n == d * k + n % d;
    assert d * (q + 1) == d * q + d && d * (k + 1) == d * k + d;
    Cancel(d, q, k + 1);
    Cancel(d, k, q + 1);
  }

  lemma Cancel(d: nat, a: nat, b: nat)
    ensures d * a < d * b ==> a < b
  {
    if a >= b { assert d * a == d * b + d * (a - b); }
  }

  lemma {:induction false} BigEndianAt(n: nat, width: nat, i: nat)
    requires i < width
    ensures BigEndian(n, width)[i] == n / Pow256(width - 1 - i) % 256
    decreases width
  {
    if i < width - 1 {
      BigEndianAt(n / 256, width - 1, i);
      DivideTwice(n, Pow256(width - 2 - i));
    }
  }

  lemma Powers()
    ensures Pow256(0) == 1 && Pow256(1) == 0x100 && Pow256(2) == 0x1_0000 && Pow256(3) == 0x100_0000
    ensures Pow256(4) == 0x1_0000_0000 && Pow256(5) == 0x100_0000_0000
    ensures Pow256(6) == 0x1_0000_0000_0000 && Pow256(7) == 0x100_0000_0000_0000
  {
    assert Pow256(4) == 256 * Pow256(3) && Pow256(5) == 256 * Pow256(4);
    assert Pow256(6) == 256 * Pow256(5) && Pow256(7) == 256 * Pow256(6);
  }

  /** A word is eight bytes, the most significant first. */
  lemma WordBytes(n: u64)
    ensures U64Bytes(n) ==
              [n / 0x100_0000_0000_0000 % 256, n / 0x1_0000_0000_0000 % 256,
               n / 0x100_0000_0000 % 256, n / 0x1_0000_0000 % 256,
               n / 0x100_0000 % 256, n / 0x1_0000 % 256, n / 0x100 % 256, n % 256]
  {
    Powers();
    hide BigEndian, Pow256;
    var b := U64Bytes(n);
    assert b == BigEndian(n, 8);
    BigEndianAt(n, 8, 0);
    BigEndianAt(n, 8, 1);
    BigEndianAt(n, 8, 2);
    BigEndianAt(n, 8, 3);
    BigEndianAt(n, 8, 4);
    BigEndianAt(n, 8, 5);
    BigEndianAt(n, 8, 6);
    BigEndianAt(n, 8, 7);
    assert b == [b[0], b[1], b[2], b[3], b[4], b[5], b[6], b[7]];
  }

  lemma U64RoundTrip(n: u64)
    ensures U64FromBytes(U64Bytes(n)) == n
  {
    PowEight();
    BigEndianRoundTrip(n, 8);
  }

  lemma U64Canonical(b: seq<byte>)
    requires |b| == 8
    ensures U64Bytes(U64FromBytes(b)) == b
  {
    FromBigEndianRoundTrip(b);
  }

  lemma Assoc<T>(a: seq<T>, b: seq<T>, c: seq<T>)
    ensures (a + b) + c == a + (b + c)
  {
  }

  /** Equal-width heads of equal strings are equal, and so are the tails. */
  lemma SplitFixed(a: seq<byte>, r: seq<byte>, b: seq<byte>, s: seq<byte>)
    requires |a| == |b|
    requires a + r == b + s
    ensures a == b && r == s
  {
    assert a == (a + r)[..|a|] && b == (b + s)[..|b|];
    assert r == (a + r)[|a|..] && s == (b + s)[|b|..];
  }

  /** A big-endian word at the front of a string determines the word and the rest. */
  lemma SplitU64(n: u64, r: seq<byte>, m: u64, s: seq<byte>)
    requires U64Bytes(n) + r == U64Bytes(m) + s
    ensures n == m && r == s
  {
    SplitFixed(U64Bytes(n), r, U64Bytes(m), s);
    U64RoundTrip(n);
    U64RoundTrip(m);
  }

  /** A length-prefixed string. */
  function Framed(s: Blob): seq<byte>
  {
    U64Bytes(|s|) + s
  }

  /** Length prefixes make the encoding of strings prefix-free. */
  lemma SplitFramed(x: Blob, r: seq<byte>, y: Blob, s: seq<byte>)
    requires Framed(x) + r == Framed(y) + s
    ensures x == y && r == s
  {
    Assoc(U64Bytes(|x|), x, r);
    Assoc(U64Bytes(|y|), y, s);
    SplitU64(|x|, x + r, |y|, y + s);
    SplitFixed(x, r, y, s);
  }

  // ---- ASCII text -----------------------------------------------------------

  predicate IsAscii(s: string)
  {
    forall i :: 0 <= i < |s| ==> s[i] < 128 as char
  }

  /** The bytes of an ASCII literal. */
  function Ascii(s: string): (b: seq<byte>)
    requires IsAscii(s)
    ensures |b| == |s|
    ensures forall i :: 0 <= i < |s| ==> b[i] == s[i] as int
  {
    seq(|s|, i requires 0 <= i < |s| => s[i] as int)
  }

  predicate StartsWith(s: seq<byte>, prefix: seq<byte>)
  {
    prefix <= s
  }

  // ---- UTF-8 ----------------------------------------------------------------

  predicate Continuation(b: byte)
  {
    0x80 <= b < 0xC0
  }

  /** Bytes taken by the scalar value at the front of `s`, or 0 when it is malformed. */
  function ScalarWidth(s: seq<byte>): (w: nat)
    requires s != []
    ensures w <= |s| && w <= 4
  {
    var a := s[0];
    if a < 0x80 then 1
    else if 0xC2 <= a < 0xE0 then
      if |s| >= 2 && Continuation(s[1]) then 2 else 0
    else if 0xE0 <= a < 0xF0 then
      if |s| >= 3 && Continuation(s[1]) && Continuation(s[2])
         && (a == 0xE0 ==> s[1] >= 0xA0) && (a == 0xED ==> s[1] < 0xA0) then 3 else 0
    else if 0xF0 <= a < 0xF5 then
      if |s| >= 4 && Continuation(s[1]) && Continuation(s[2]) && Continuation(s[3])
         && (a == 0xF0 ==> s[1] >= 0x90) && (a == 0xF4 ==> s[1] < 0x90) then 4 else 0
    else 0
  }

  /** Well-formed UTF-8 (Unicode table 3-7), as `String::from_utf8` accepts it. */
  predicate ValidUtf8(s: seq<byte>)
  {
    s == [] || (ScalarWidth(s) > 0 && ValidUtf8(s[ScalarWidth(s)..]))
  }

  // ---- what UTF-8 encodes -------------------------------------------------------

  /** Unicode scalar values: every code point but the surrogates. */
  type Scalar = n: int | 0 <= n < 0x110000 && !(0xD800 <= n < 0xE000)

  /** The UTF-8 form of a scalar value (Unicode table 3-6). */
  function Utf8Form(n: Scalar): (b: seq<byte>)
    ensures 1 <= |b| <= 4
  {
    if n < 0x80 then [n]
    else if n < 0x800 then [0xC0 + n / 64, 0x80 + n % 64]
    else if n < 0x10000 then [0xE0 + n / 4096, 0x80 + n / 64 % 64, 0x80 + n % 64]
    else [0xF0 + n / 262144, 0x80 + n / 4096 % 64, 0x80 + n / 64 % 64, 0x80 + n % 64]
  }

  function Utf8Text(text: seq<Scalar>): seq<byte>
  {
    if text == [] then [] else Utf8Form(text[0]) + Utf8Text(text[1..])
  }

  lemma FormWidth(n: Scalar, rest: seq<byte>)
    ensures ScalarWidth(Utf8Form(n) + rest) == |Utf8Form(n)|
  {
  }

  lemma FrontScalar(s: seq<byte>) returns (n: Scalar)
    requires s != [] && ScalarWidth(s) > 0
    ensures s[..ScalarWidth(s)] == Utf8Form(n)
  {
    var w := ScalarWidth(s);
    var a: int := s[0];
    if w == 1 {
      n := a;
    } else if w == 2 {
      var b: int := s[1];
      n := (a - 0xC0) * 64 + (b - 0x80);
    } else if w == 3 {
      var b: int, c: int := s[1], s[2];
      n := (a - 0xE0) * 4096 + (b - 0x80) * 64 + (c - 0x80);
      ThreeBytes(a - 0xE0, b - 0x80, c - 0x80);
    } else {
      var b: int, c: int, d: int := s[1], s[2], s[3];
      n := (a - 0xF0) * 262144 + (b - 0x80) * 4096 + (c - 0x80) * 64 + (d - 0x80);
      ThreeBytes((a - 0xF0) * 64 + (b - 0x80), c - 0x80, d - 0x80);
    }
  }

  lemma ThreeBytes(x: nat, y: nat, z: nat)
    requires y < 64 && z < 64
    ensures var n := x * 4096 + y * 64 + z;
      n / 4096 == x && n / 64 % 64 == y && n % 64 == z
  {
    var n, m := x * 4096 + y * 64 + z, x * 64 + y;
    assert n == m * 64 + z && n / 64 == m && n % 64 == z;
    assert m / 64 == x && m % 64 == y;
  }

  lemma {:induction false} ScalarsOf(s: seq<byte>) returns (text: seq<Scalar>)
    requires ValidUtf8(s)
    ensures Utf8Text(text) == s
  {
    hide ScalarWidth, Utf8Form;
    if s == [] {
      text := [];
    } else {
      var w := ScalarWidth(s);
      var first := FrontScalar(s);
      var rest := ScalarsOf(s[w..]);
      text := [first] + rest;
      assert text[1..] == rest && s == s[..w] + s[w..];
    }
  }

  lemma {:induction false} FormsAreValid(text: seq<Scalar>)
    ensures ValidUtf8(Utf8Text(text))
  {
    hide ScalarWidth, Utf8Form;
    if text != [] {
      var rest := Utf8Text(text[1..]);
      FormWidth(text[0], rest);
      FormsAreValid(text[1..]);
      assert (Utf8Form(text[0]) + rest)[|Utf8Form(text[0])|..] == rest;
    }
  }

  /** The validation accepts exactly the encodings of sequences of scalar values. */
  lemma ValidUtf8Meaning(s: seq<byte>)
    ensures ValidUtf8(s) <==> exists text :: Utf8Text(text) == s
  {
    if ValidUtf8(s) {
      var text := ScalarsOf(s);
    }
    if text :| Utf8Text(text) == s {
      FormsAreValid(text);
    }
  }

  /** A Rust string: well-formed UTF-8 of 64-bit length. */
  type Utf8 = s: seq<byte> | |s| < U64_LIMIT && ValidUtf8(s)
}

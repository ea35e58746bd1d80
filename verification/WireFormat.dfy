/** The wire format of canonical bytes, position by position: words, texts, and which byte stands
    where in a manifest. */
module WireFormat {
  import opened Bytes
  import opened Order
  import opened Outcomes
  import opened Sequences
  import opened LogicalPath
  import opened DatasetManifest

  // ---- words --------------------------------------------------------------------------------

  lemma {:induction false} LexAppendOne<T(!new)>(leq: (T, T) -> bool, x: seq<T>, p: T, y: seq<T>, q: T)
    requires Reflexive(leq) && |x| == |y|
    ensures LexLeq(leq, x + [p], y + [q]) <==> if x == y then leq(p, q) else LexLeq(leq, x, y)
  {
    if x == [] {
      assert x + [p] == [p] && y + [q] == [q];
    } else {
      assert (x + [p])[1..] == x[1..] + [p] && (y + [q])[1..] == y[1..] + [q];
      assert x == y <==> x[0] == y[0] && x[1..] == y[1..] by {
        assert x == [x[0]] + x[1..] && y == [y[0]] + y[1..];
      }
      if x[0] == y[0] { LexAppendOne(leq, x[1..], p, y[1..], q); }
    }
  }

  lemma {:induction false} BigEndianAscends(a: nat, b: nat, width: nat)
    requires a < Pow256(width) && b < Pow256(width)
    ensures PathLeq(BigEndian(a, width), BigEndian(b, width)) <==> a <= b
    decreases width
  {
    if width > 0 {
      var x, y := BigEndian(a / 256, width - 1), BigEndian(b / 256, width - 1);
      BigEndianAscends(a / 256, b / 256, width - 1);
      BigEndianRoundTrip(a / 256, width - 1);
      BigEndianRoundTrip(b / 256, width - 1);
      var p: byte, q: byte := a % 256, b % 256;
      PathOrder();
      hide Pow256, LexLeq;
      LexAppendOne<byte>(ByteLeq, x, p, y, q);
    }
  }

  /** Words sort as the numbers they spell. */
  lemma WordsAscend(a: u64, b: u64)
    ensures PathLeq(U64Bytes(a), U64Bytes(b)) <==> a <= b
  {
    PowEight();
    BigEndianAscends(a, b, 8);
  }

  /** The string `part` stands at position `at`. */
  predicate BytesAt(bytes: seq<byte>, at: nat, part: seq<byte>)
  {
    at + |part| <= |bytes| && bytes[at..at + |part|] == part
  }

  /** A big-endian 64-bit word stands at position `at`. */
  predicate WordAt(bytes: seq<byte>, at: nat, n: u64)
  {
    && at + 8 <= |bytes|
    && bytes[at] == n / 0x100_0000_0000_0000 % 256 && bytes[at + 1] == n / 0x1_0000_0000_0000 % 256
    && bytes[at + 2] == n / 0x100_0000_0000 % 256 && bytes[at + 3] == n / 0x1_0000_0000 % 256
    && bytes[at + 4] == n / 0x100_0000 % 256 && bytes[at + 5] == n / 0x1_0000 % 256
    && bytes[at + 6] == n / 0x100 % 256 && bytes[at + 7] == n % 256
  }

  /** A text stands at position `at`: its length in bytes, then the bytes. */
  predicate TextAt(bytes: seq<byte>, at: nat, text: Blob)
  {
    WordAt(bytes, at, |text|) && BytesAt(bytes, at + 8, text)
  }

  lemma PartPlaced(front: seq<byte>, part: seq<byte>, rest: seq<byte>)
    ensures BytesAt(front + part + rest, |front|, part)
  {
  }

  lemma WordPlaced(front: seq<byte>, n: u64, rest: seq<byte>)
    ensures WordAt(front + U64Bytes(n) + rest, |front|, n)
  {
    WordBytes(n);
    var bytes := front + U64Bytes(n) + rest;
    assert forall k :: 0 <= k < 8 ==> bytes[|front| + k] == U64Bytes(n)[k];
  }

  lemma TextPlaced(front: seq<byte>, text: Blob, rest: seq<byte>)
    ensures TextAt(front + Framed(text) + rest, |front|, text)
    ensures |Framed(text)| == 8 + |text|
  {
    hide U64Bytes, WordAt;
    WordPlaced(front, |text|, text + rest);
    PartPlaced(front + U64Bytes(|text|), text, rest);
    assert front + Framed(text) + rest == front + U64Bytes(|text|) + (text + rest);
    assert front + Framed(text) + rest == front + U64Bytes(|text|) + text + rest;
  }

  /** Three parts in a row, each with what stands before and after it. */
  lemma ThreeParts(front: seq<byte>, a: seq<byte>, b: seq<byte>, c: seq<byte>, rest: seq<byte>)
    ensures front + (a + b + c) + rest == front + a + (b + c + rest)
    ensures front + (a + b + c) + rest == front + a + b + (c + rest)
    ensures front + (a + b + c) + rest == front + a + b + c + rest
  {
  }

  lemma TwoParts(front: seq<byte>, a: seq<byte>, b: seq<byte>, rest: seq<byte>)
    ensures front + (a + b) + rest == front + a + (b + rest)
    ensures front + (a + b) + rest == front + a + b + rest
  {
  }

  // ---- manifests -----------------------------------------------------------------------------

  function ObjectSize(o: Object): nat
  {
    |o.path| + 48
  }

  function ObjectsSize(objects: seq<Object>): nat
  {
    Sum(objects, ObjectSize)
  }

  /** Path, size and digest of one object. */
  predicate ObjectAt(bytes: seq<byte>, at: nat, o: Object)
  {
    && TextAt(bytes, at, o.path)
    && WordAt(bytes, at + 8 + |o.path|, o.size)
    && BytesAt(bytes, at + 16 + |o.path|, o.digest)
  }

  lemma ObjectPlaced(front: seq<byte>, o: Object, rest: seq<byte>)
    ensures ObjectAt(front + EncodeObject(o) + rest, |front|, o)
    ensures |EncodeObject(o)| == ObjectSize(o)
  {
    hide WordAt, BytesAt, TextAt, U64Bytes, Framed;
    ThreeParts(front, Framed(o.path), U64Bytes(o.size), o.digest, rest);
    TextPlaced(front, o.path, U64Bytes(o.size) + o.digest + rest);
    WordPlaced(front + Framed(o.path), o.size, o.digest + rest);
    PartPlaced(front + Framed(o.path) + U64Bytes(o.size), o.digest, rest);
  }

  lemma {:induction false} EncodeConcat(a: seq<Object>, b: seq<Object>)
    ensures EncodeObjects(a + b) == EncodeObjects(a) + EncodeObjects(b)
  {
    hide EncodeObject;
    if a == [] {
      assert a + b == b;
    } else {
      assert (a + b)[1..] == a[1..] + b;
      EncodeConcat(a[1..], b);
      Assoc(EncodeObject(a[0]), EncodeObjects(a[1..]), EncodeObjects(b));
    }
  }

  lemma {:induction false} EncodeSize(objects: seq<Object>)
    ensures |EncodeObjects(objects)| == ObjectsSize(objects)
  {
    hide EncodeObject, ObjectSize;
    if objects != [] {
      var n := |objects| - 1;
      EncodeSize(objects[..n]);
      ObjectPlaced([], objects[n], []);
      assert objects[..n] + [objects[n]] == objects;
      EncodeAppend(objects[..n], objects[n]);
      hide EncodeObjects;
    }
  }

  lemma ListedObjectPlaced(front: seq<byte>, objects: seq<Object>, i: nat)
    requires i < |objects|
    ensures ObjectAt(front + EncodeObjects(objects), |front| + ObjectsSize(objects[..i]), objects[i])
  {
    hide ObjectAt, EncodeObject, EncodeObjects, ObjectsSize;
    var before, after := EncodeObjects(objects[..i]), EncodeObjects(objects[i + 1..]);
    EncodedAround(objects, i);
    EncodeSize(objects[..i]);
    ObjectPlaced(front + before, objects[i], after);
    assert front + (before + (EncodeObject(objects[i]) + after)) == front + before + EncodeObject(objects[i]) + after;
  }

  lemma EncodedAround(objects: seq<Object>, i: nat)
    requires i < |objects|
    ensures EncodeObjects(objects) ==
              EncodeObjects(objects[..i]) + (EncodeObject(objects[i]) + EncodeObjects(objects[i + 1..]))
  {
    hide EncodeObject, EncodeObjects;
    EncodeConcat(objects[..i], objects[i..]);
    EncodedHead(objects[i..]);
    assert objects[..i] + objects[i..] == objects && objects[i..][1..] == objects[i + 1..];
  }

  lemma EncodedHead(objects: seq<Object>)
    requires objects != []
    ensures EncodeObjects(objects) == EncodeObject(objects[0]) + EncodeObjects(objects[1..])
  {
  }

  function ManifestDomain(): (d: seq<byte>)
    ensures |d| == 32
  {
    Ascii("pubky.swarm/dataset-manifest/v1") + [0]
  }

  /** A manifest byte by byte: the NUL-terminated domain name, the publisher, creation time and
      number of objects as words, then each object at its running offset, and nothing after. */
  lemma ManifestLayout(m: Manifest, bytes: seq<byte>)
    requires bytes == DatasetManifest.Encode(m)
    ensures BytesAt(bytes, 0, ManifestDomain()) && BytesAt(bytes, 32, m.publisher)
    ensures WordAt(bytes, 64, m.createdAt) && WordAt(bytes, 72, |m.objects|)
    ensures forall i :: 0 <= i < |m.objects| ==> ObjectAt(bytes, 80 + ObjectsSize(m.objects[..i]), m.objects[i])
    ensures |bytes| == 80 + ObjectsSize(m.objects)
  {
    hide WordAt, BytesAt, ObjectAt, U64Bytes, ObjectsSize, EncodeObjects, Prefix, ManifestDomain, Header;
    var prefix, objects := Prefix(), EncodeObjects(m.objects);
    PrefixIsDomain();
    HeaderPlaced(prefix, m, objects);
    Assoc(prefix, Header(m), objects);
    forall i | 0 <= i < |m.objects| ensures ObjectAt(bytes, 80 + ObjectsSize(m.objects[..i]), m.objects[i]) {
      ListedObjectPlaced(prefix + Header(m), m.objects, i);
    }
    EncodeSize(m.objects);
  }

  lemma PrefixIsDomain()
    ensures Prefix() == ManifestDomain()
  {
  }

  lemma HeaderPlaced(prefix: seq<byte>, m: Manifest, rest: seq<byte>)
    requires |prefix| == 32
    ensures var bytes := prefix + Header(m) + rest;
      && BytesAt(bytes, 0, prefix) && BytesAt(bytes, 32, m.publisher)
      && WordAt(bytes, 64, m.createdAt) && WordAt(bytes, 72, |m.objects|)
  {
    hide WordAt, BytesAt, U64Bytes;
    var created, count := U64Bytes(m.createdAt), U64Bytes(|m.objects|);
    ThreeParts(prefix, m.publisher, created, count, rest);
    PartPlaced([], prefix, Header(m) + rest);
    assert [] + prefix + (Header(m) + rest) == prefix + Header(m) + rest;
    PartPlaced(prefix, m.publisher, created + count + rest);
    WordPlaced(prefix + m.publisher, m.createdAt, count + rest);
    WordPlaced(prefix + m.publisher + created, |m.objects|, rest);
  }
}

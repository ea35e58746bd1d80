/** BEP 46 dataset heads: the canonical value, signed items, and the rollback check. */
module SwarmHead {
  import opened Bytes
  import opened Outcomes
  import opened DatasetManifest
  import opened TorrentReference

  /** 2^63: BEP 44 sequences are signed 64-bit words. */
  const I64_LIMIT: int := 0x8000_0000_0000_0000

  type i64 = x: int | -I64_LIMIT <= x < I64_LIMIT

  function Salt(): seq<byte> { Ascii("pubky.swarm/v1/dataset") }
  function ValuePrefix(): (p: seq<byte>) ensures |p| == 8 { Ascii("d2:ih20:") }

  const VALUE_LENGTH: nat := 29
  const TERMINATOR: byte := 'e' as int

  /** The canonical BEP 46 value of an info hash. */
  function Value(infoHash: Bytes20): (v: seq<byte>)
    ensures |v| == VALUE_LENGTH
  {
    ValuePrefix() + infoHash + [TERMINATOR]
  }

  method CopyInto(value: array<byte>, start: nat, source: seq<byte>)
    requires start + |source| <= value.Length
    modifies value
    ensures value[..] == old(value[..start]) + source + old(value[start + |source|..])
  {
    for i := 0 to |source|
      invariant value[..start] == old(value[..start])
      invariant value[start..start + i] == source[..i]
      invariant value[start + i..] == old(value[start + i..])
    {
      value[start + i] := source[i];
    }
    assert value[..] == value[..start] + value[start..start + |source|] + value[start + |source|..];
  }

  /** `encode_bep46_value`, filling a fixed buffer. */
  method EncodeValue(infoHash: Bytes20) returns (value: array<byte>)
    ensures fresh(value) && value[..] == Value(infoHash)
    ensures value.Length == 29 && value[..8] == Ascii("d2:ih20:") && value[8..28] == infoHash && value[28] == 'e' as int
  {
    value := new byte[VALUE_LENGTH](_ => 0);
    CopyInto(value, 0, ValuePrefix());
    CopyInto(value, 8, infoHash);
    value[VALUE_LENGTH - 1] := TERMINATOR;
    assert value[..8] == ValuePrefix() && value[8..28] == infoHash;
    assert value[..] == value[..8] + value[8..28] + [value[28]];
  }

  datatype HeadError =
    | InvalidValue
    | UnexpectedSalt
    | InvalidSequence(sequence: i64)
    | SequenceExhausted
    | ConcurrentUpdate(expected: Option<i64>, actual: Option<i64>)
    | Rollback(highestSeen: i64, resolved: i64)
    | DhtFailed

  /** `decode_bep46_value`. */
  function DecodeValue(value: seq<byte>): Result<Bytes20, HeadError>
  {
    if |value| != VALUE_LENGTH || !StartsWith(value, ValuePrefix()) || value[VALUE_LENGTH - 1] != TERMINATOR
    then Err(InvalidValue)
    else Ok(value[8..28])
  }

  /** A value decodes exactly when it is the encoding of an info hash, and then to that one. */
  lemma ValueBijection(value: seq<byte>, infoHash: Bytes20)
    ensures DecodeValue(value) == Ok(infoHash) <==> value == Value(infoHash)
  {
    if value == Value(infoHash) { assert value[8..28] == infoHash; }
    if DecodeValue(value) == Ok(infoHash) { assert value == value[..8] + value[8..28] + [value[28]]; }
  }

  // ---- signed heads ------------------------------------------------------------------------

  /** A mutable item whose signature and target the DHT client has verified. */
  datatype MutableItem = MutableItem(key: Bytes32, salt: Option<seq<byte>>, sequence: i64, value: seq<byte>)

  datatype SignedHead = SignedHead(item: MutableItem, infoHash: Bytes20) {
    function Sequence(): i64 { item.sequence }
    function Publisher(): Bytes32 { item.key }
  }

  /** `SignedHead::from_mutable_item`. */
  function FromItem(item: MutableItem): Result<SignedHead, HeadError>
  {
    if item.salt != Some(Salt()) then Err(UnexpectedSalt)
    else if item.sequence <= 0 then Err(InvalidSequence(item.sequence))
    else
      var infoHash :- DecodeValue(item.value);
      Ok(SignedHead(item, infoHash))
  }

  /** `HeadSigner::sign`. */
  function Sign(key: Bytes32, infoHash: Bytes20, sequence: i64): Result<SignedHead, HeadError>
  {
    if sequence <= 0 then Err(InvalidSequence(sequence))
    else FromItem(MutableItem(key, Some(Salt()), sequence, Value(infoHash)))
  }

  /** Signing succeeds exactly for positive sequences, and every reader of the item gets back
      the signer's key, sequence and info hash; nothing else passes for a head. */
  lemma SignedHeadsReadBack(key: Bytes32, infoHash: Bytes20, sequence: i64, item: MutableItem)
    ensures Sign(key, infoHash, sequence).Ok? <==> sequence > 0
    ensures sequence > 0 ==>
              (FromItem(item) == Sign(key, infoHash, sequence)
               <==> item == MutableItem(key, Some(Salt()), sequence, Value(infoHash)))
    ensures FromItem(item).Ok? ==> FromItem(item) == Sign(item.key, FromItem(item).value.infoHash, item.sequence)
  {
    ValueBijection(Value(infoHash), infoHash);
    if FromItem(item).Ok? {
      ValueBijection(item.value, FromItem(item).value.infoHash);
      ValueBijection(Value(FromItem(item).value.infoHash), FromItem(item).value.infoHash);
    }
  }

  /** `HeadClient::resolve`, given what the DHT answers. */
  function Resolve(answer: Option<MutableItem>, highestSeen: Option<i64>): Result<Option<SignedHead>, HeadError>
  {
    if answer.None? then Ok(None)
    else
      var head :- FromItem(answer.value);
      if highestSeen.Some? && head.Sequence() < highestSeen.value
      then Err(Rollback(highestSeen.value, head.Sequence()))
      else Ok(Some(head))
  }

  /** A head resolves exactly when it is well formed and not below the mark. */
  lemma ResolveMeaning(answer: Option<MutableItem>, highestSeen: Option<i64>, head: SignedHead)
    ensures Resolve(answer, highestSeen) == Ok(Some(head)) <==>
              && answer == Some(head.item) && head.item.salt == Some(Ascii("pubky.swarm/v1/dataset"))
              && head.item.value == Ascii("d2:ih20:") + head.infoHash + Ascii("e")
              && head.Sequence() > 0 && (highestSeen.Some? ==> head.Sequence() >= highestSeen.value)
  {
    if answer.Some? {
      ValueBijection(answer.value.value, head.infoHash);
    }
    assert Value(head.infoHash) == Ascii("d2:ih20:") + head.infoHash + Ascii("e");
  }

  /** What is answered when no head resolves: none for an absent item, and otherwise the first of
      the reasons, salt, sequence, value and mark, that holds. */
  lemma ResolveRefuses(answer: Option<MutableItem>, highestSeen: Option<i64>, e: HeadError)
    ensures Resolve(answer, highestSeen) == Ok(None) <==> answer.None?
    ensures Resolve(answer, highestSeen) == Err(e) <==>
              && answer.Some?
              && var item := answer.value;
              var salted := item.salt == Some(Ascii("pubky.swarm/v1/dataset"));
              var canonical := exists h: Bytes20 :: item.value == Ascii("d2:ih20:") + h + Ascii("e");
              match e
              case UnexpectedSalt => !salted
              case InvalidSequence(n) => salted && n == item.sequence <= 0
              case InvalidValue => salted && item.sequence > 0 && !canonical
              case Rollback(seen, resolved) =>
                salted && canonical && 0 < item.sequence == resolved && highestSeen == Some(seen) && resolved < seen
              case _ => false
  {
    if answer.Some? {
      ResolvedValue(answer.value.value);
      hide DecodeValue;
    }
  }

  lemma ResolvedValue(value: seq<byte>)
    ensures DecodeValue(value).Ok? <==> exists h: Bytes20 :: value == Ascii("d2:ih20:") + h + Ascii("e")
    ensures DecodeValue(value).Err? ==> DecodeValue(value).error == InvalidValue
  {
    forall h: Bytes20 ensures Value(h) == Ascii("d2:ih20:") + h + Ascii("e") {}
    if DecodeValue(value).Ok? { ValueBijection(value, DecodeValue(value).value); }
    if h: Bytes20 :| value == Ascii("d2:ih20:") + h + Ascii("e") { ValueBijection(value, h); }
  }
}

/**
 The transaction wire format (transaction.go): signatures in front of a legacy or v0 message and
 behind a v1 message, and what that means for decoding from a stream.
 */
module TxCodec {
  import opened Wire
  import opened Message
  import opened MessageV1
  import opened MessageCodec

  type Signature = b: seq<byte> | |b| == 64 witness seq(64, i => 0)

  datatype Tx = Tx(signatures: seq<Signature>, message: Message)

  function PutSignature(s: Signature): (r: seq<byte>) {
    s
  }

  function GetSignature(buf: seq<byte>, pos: nat): (r: Parsed<Signature>) {
    var (b, p) :- GetBytes(buf, pos, 64);
    Ok(b, p)
  }

  /** Signatures counted by a compact-u16, as legacy and v0 transactions carry them. */
  function PutSignatureVec(sigs: seq<Signature>): (r: seq<byte>) {
    PutVec(PutSignature, sigs)
  }

  function GetSignatureVec(buf: seq<byte>, pos: nat): (r: Parsed<seq<Signature>>) {
    GetVec(GetSignature, buf, pos)
  }

  /** Signatures counted by the message header, as v1 transactions carry them. */
  function PutSignatures(sigs: seq<Signature>): (r: seq<byte>) {
    PutAll(PutSignature, sigs)
  }

  function GetSignatures(n: nat, buf: seq<byte>, pos: nat): (r: Parsed<seq<Signature>>) {
    GetAll(GetSignature, buf, pos, n, [])
  }

  function PutSignedFirst(tx: Tx): (r: seq<byte>) {
    PutSignatureVec(tx.signatures) + PutMessage(tx.message)
  }

  function PutSignedLast(tx: Tx): (r: seq<byte>) {
    PutMessage(tx.message) + PutSignatures(tx.signatures)
  }

  function PutTx(tx: Tx): (r: seq<byte>) {
    if tx.message.version == VERSION_1 then PutSignedLast(tx) else PutSignedFirst(tx)
  }

  /** The first byte alone decides where the signatures are looked for. */
  function GetTx(buf: seq<byte>, pos: nat): (r: Parsed<Tx>) {
    if pos >= |buf| then Err(ShortBuffer)
    else if buf[pos] == 0x81 then
      var (m, p1) :- GetMessage(buf, pos);
      var (sigs, p2) :- GetSignatures(m.header.numRequiredSignatures, buf, p1);
      Ok(Tx(sigs, m), p2)
    else
      var (sigs, p1) :- GetSignatureVec(buf, pos);
      var (m, p2) :- GetMessage(buf, p1);
      Ok(Tx(sigs, m), p2)
  }

  ghost function MarshalTx(tx: Tx): (r: Result<seq<byte>>) {
    if |tx.signatures| > 0xFFFF then Failure(TooLong)
    else if Validate(tx.message).Some? then Failure(Validate(tx.message).value)
    else if |tx.signatures| != tx.message.header.numRequiredSignatures then Failure(SignatureCountMismatch)
    else if Fits(tx.message) then Success(PutTx(tx))
    else Failure(TooLong)
  }

  function UnmarshalTx(data: seq<byte>): (r: Result<Tx>) {
    if |data| == 0 then Failure(EmptyInput)
    else
      match GetTx(data, 0)
      case Err(e) => Failure(e)
      case Ok(tx, p) => if p == |data| then Success(tx) else Failure(TrailingBytes)
  }

  /** A count of 129 begins with the byte that announces a v1 message. */
  predicate LooksLikeV1(tx: Tx) {
    tx.message.version == VERSION_0 && |tx.signatures| == 129
  }

  /** The transactions that a stream can carry and give back. */
  ghost predicate Transmissible(tx: Tx) {
    && Canonical(tx.message)
    && |tx.signatures| == tx.message.header.numRequiredSignatures
    && !LooksLikeV1(tx)
  }

  // ---------------------------------------------------------------- signatures

  lemma SignaturesLawful()
    ensures Lawful(GetSignature, PutSignature, Anything<Signature>)
  {
  }

  lemma GetSignatureVecExact(buf: seq<byte>, pos: nat, sigs: seq<Signature>)
    ensures Exactly(GetSignatureVec(buf, pos), sigs, buf, pos, PutSignatureVec(sigs), |sigs| <= 0xFFFF)
  {
    SignaturesLawful();
    GetVecExact(GetSignature, PutSignature, Anything<Signature>, buf, pos, sigs);
  }

  lemma GetSignaturesExact(n: nat, buf: seq<byte>, pos: nat, sigs: seq<Signature>)
    requires pos <= |buf|
    ensures Exactly(GetSignatures(n, buf, pos), sigs, buf, pos, PutSignatures(sigs), |sigs| == n)
  {
    SignaturesLawful();
    GetAllExact(GetSignature, PutSignature, Anything<Signature>, buf, pos, n, sigs);
  }

  /** The first byte of a counted signature list is 0x81 exactly when the count is 1 modulo 128 and at least 129. */
  lemma FirstByteOfCount(buf: seq<byte>, pos: nat, sigs: seq<Signature>)
    requires At(buf, pos, PutSignatureVec(sigs)) && |sigs| <= 255
    ensures pos < |buf|
    ensures buf[pos] == 0x81 <==> |sigs| == 129
  {
    AtCat(buf, pos, Shortvec(|sigs|), PutAll(PutSignature, sigs));
    var w := buf[pos..pos + |Shortvec(|sigs|)|];
    assert w[0] == buf[pos];
  }

  lemma FirstByteOfV1(buf: seq<byte>, pos: nat, m: Message)
    requires At(buf, pos, PutMessage(m)) && m.version == VERSION_1
    ensures pos < |buf| && buf[pos] == 0x81
  {
    hide PutBodyV1;
    PrefixAt(buf, pos, 0x81, PutBodyV1(m));
  }

  // ---------------------------------------------------------------- decoding

  lemma GetTxComplete(buf: seq<byte>, pos: nat, tx: Tx)
    requires Transmissible(tx) && At(buf, pos, PutTx(tx))
    ensures GetTx(buf, pos) == Ok(tx, pos + |PutTx(tx)|)
  {
    hide At, GetMessage, PutMessage, Canonical, GetSignatures, PutSignatures, GetSignatureVec, PutSignatureVec;
    var m, sigs := tx.message, tx.signatures;
    if m.version == VERSION_1 {
      AtCat(buf, pos, PutMessage(m), PutSignatures(sigs));
      AtBound(buf, pos, PutMessage(m));
      FirstByteOfV1(buf, pos, m);
      GetMessageComplete(buf, pos, m);
      GetSignaturesExact(|sigs|, buf, pos + |PutMessage(m)|, sigs);
    } else {
      AtCat(buf, pos, PutSignatureVec(sigs), PutMessage(m));
      CanonicalLegacy(m);
      FirstByteOfCount(buf, pos, sigs);
      GetSignatureVecExact(buf, pos, sigs);
      GetMessageComplete(buf, pos + |PutSignatureVec(sigs)|, m);
    }
  }

  lemma CanonicalLegacy(m: Message)
    requires Canonical(m)
    ensures m.version == VERSION_LEGACY || m.version == VERSION_0 || m.version == VERSION_1
    ensures m.version == VERSION_LEGACY ==> m.header.numRequiredSignatures < 128
  {
  }

  lemma GetTxSoundLast(buf: seq<byte>, pos: nat, tx: Tx, p: nat)
    requires GetTx(buf, pos) == Ok(tx, p) && buf[pos] == 0x81
    ensures Canonical(tx.message) && tx.message.version == VERSION_1
    ensures |tx.signatures| == tx.message.header.numRequiredSignatures
    ensures At(buf, pos, PutSignedLast(tx)) && p == pos + |PutSignedLast(tx)|
  {
    hide At, GetMessage, PutMessage, Canonical, GetSignatures, PutSignatures, GetSignatureVec, PutSignatureVec;
    var m, sigs := tx.message, tx.signatures;
    var p1 := GetMessage(buf, pos).pos;
    assert GetSignatures(m.header.numRequiredSignatures, buf, p1) == Ok(sigs, p);
    hide GetTx;
    V1Dispatch(buf, pos, m, p1);
    GetMessageSound(buf, pos, m, p1);
    AtBound(buf, pos, PutMessage(m));
    GetSignaturesExact(m.header.numRequiredSignatures, buf, p1, sigs);
    AtCat(buf, pos, PutMessage(m), PutSignatures(sigs));
  }

  lemma GetTxSoundFirst(buf: seq<byte>, pos: nat, tx: Tx, p: nat)
    requires GetTx(buf, pos) == Ok(tx, p) && buf[pos] != 0x81
    ensures Canonical(tx.message) && |tx.signatures| <= 0xFFFF
    ensures At(buf, pos, PutSignedFirst(tx)) && p == pos + |PutSignedFirst(tx)|
  {
    hide At, GetMessage, PutMessage, Canonical, GetSignatures, PutSignatures, GetSignatureVec, PutSignatureVec;
    var m, sigs := tx.message, tx.signatures;
    var p1 := GetSignatureVec(buf, pos).pos;
    assert GetMessage(buf, p1) == Ok(m, p);
    hide GetTx;
    GetSignatureVecExact(buf, pos, sigs);
    GetMessageSound(buf, p1, m, p);
    AtCat(buf, pos, PutSignatureVec(sigs), PutMessage(m));
  }

  lemma V1Dispatch(buf: seq<byte>, pos: nat, m: Message, p: nat)
    requires GetMessage(buf, pos) == Ok(m, p) && buf[pos] == 0x81
    ensures m.version == VERSION_1
  {
    hide GetHead, GetAllKeys, GetConfig, GetMetas, GetPayloads;
  }

  // ---------------------------------------------------------------- theorems

  /**
   Self-delimiting: a transmissible transaction is read back from the front of any stream, leaving
   exactly what follows it.
   */
  lemma DecodesBeforeAnySuffix(tx: Tx, suffix: seq<byte>)
    requires Transmissible(tx)
    ensures GetTx(PutTx(tx) + suffix, 0) == Ok(tx, |PutTx(tx)|)
  {
    hide Transmissible, PutTx, GetTx;
    AtWhole(PutTx(tx), suffix);
    GetTxComplete(PutTx(tx) + suffix, 0, tx);
  }

  /** A marshalled transaction reads back equal exactly when a caller-checkable condition holds. */
  lemma TxRoundTrip(tx: Tx)
    requires MarshalTx(tx).Success?
    ensures UnmarshalTx(MarshalTx(tx).value) == Success(tx) <==>
            Representable(tx.message) && !LooksLikeV1(tx)
  {
    var e := PutTx(tx);
    MessageNonEmpty(tx.message);
    assert |e| > 0;
    if LooksLikeV1(tx) {
      LooksLikeV1Misread(tx);
    } else if Representable(tx.message) {
      DecodesBeforeAnySuffix(tx, []);
      assert e + [] == e;
    } else if UnmarshalTx(e).Success? {
      DecodedIsCanonical(e, 0);
    }
  }

  /** The transaction that comes back, whatever configuration it was written with. */
  lemma TxRoundTripNormal(tx: Tx)
    requires MarshalTx(tx).Success? && !LooksLikeV1(tx)
    requires tx.message.version == VERSION_LEGACY ==> tx.message.header.numRequiredSignatures < 128
    ensures UnmarshalTx(MarshalTx(tx).value) == Success(tx.(message := Normal(tx.message)))
  {
    var normal := tx.(message := Normal(tx.message));
    NormalMarshalsAlike(tx.message);
    hide Marshal, PutMessage, UnmarshalTx, Representable;
    NormalTx(tx);
    TxRoundTrip(normal);
  }

  lemma NormalTx(tx: Tx)
    requires MarshalTx(tx).Success?
    ensures MarshalTx(tx.(message := Normal(tx.message))) == MarshalTx(tx)
    ensures LooksLikeV1(tx.(message := Normal(tx.message))) == LooksLikeV1(tx)
  {
    if tx.message.version == VERSION_1 {
      ConfigNormal(tx.message);
    } else {
      ConfigIrrelevant(tx.message, None);
    }
  }

  lemma DecodedIsCanonical(buf: seq<byte>, pos: nat)
    requires GetTx(buf, pos).Ok?
    ensures Canonical(GetTx(buf, pos).value.message)
  {
    hide At, GetMessage, PutMessage, Canonical, GetSignatures, GetSignatureVec;
    var r := GetTx(buf, pos);
    if buf[pos] == 0x81 {
      GetTxSoundLast(buf, pos, r.value, r.pos);
    } else {
      GetTxSoundFirst(buf, pos, r.value, r.pos);
    }
  }

  /** The bytes of a v0 transaction with 129 signatures are read, if at all, as a v1 transaction. */
  lemma LooksLikeV1Misread(tx: Tx)
    requires LooksLikeV1(tx)
    ensures GetTx(PutTx(tx), 0).Ok? ==> GetTx(PutTx(tx), 0).value.message.version == VERSION_1
  {
    var e := PutTx(tx);
    AtWhole(PutSignatureVec(tx.signatures), PutMessage(tx.message));
    FirstByteOfCount(e, 0, tx.signatures);
    if GetTx(e, 0).Ok? {
      GetTxSoundLast(e, 0, GetTx(e, 0).value, GetTx(e, 0).pos);
    }
  }

  /** No proper prefix of the encoding of a transmissible transaction decodes. */
  lemma NoProperPrefixDecodes(tx: Tx, data: seq<byte>)
    requires Transmissible(tx) && data < PutTx(tx)
    ensures GetTx(data, 0).Err?
  {
    hide Transmissible, PutTx, GetTx;
    if GetTx(data, 0).Ok? {
      ReadingIsWhole(tx, data);
    }
  }

  lemma AtLonger(data: seq<byte>, whole: seq<byte>, e: seq<byte>)
    requires data <= whole && At(data, 0, e)
    ensures At(whole, 0, e)
  {
    assert whole[0..|e|] == data[0..|e|];
  }

  lemma ReadingIsWhole(tx: Tx, data: seq<byte>)
    requires Transmissible(tx) && data <= PutTx(tx)
    requires GetTx(data, 0).Ok?
    ensures |data| >= |PutTx(tx)|
  {
    hide GetMessage, PutMessage, Canonical, GetSignatures, PutSignatures, GetSignatureVec, PutSignatureVec;
    var whole, got, p := PutTx(tx), GetTx(data, 0).value, GetTx(data, 0).pos;
    assert whole[0..|whole|] == whole;
    assert data[0] == whole[0];
    GetTxComplete(whole, 0, tx);
    if data[0] == 0x81 {
      GetTxSoundLast(data, 0, got, p);
      AtBound(data, 0, PutSignedLast(got));
      AtLonger(data, whole, PutSignedLast(got));
      GetTxComplete(whole, 0, got);
    } else if tx.message.version == VERSION_1 {
      AtWhole(PutMessage(tx.message), PutSignatures(tx.signatures));
      FirstByteOfV1(whole, 0, tx.message);
    } else {
      GetTxSoundFirst(data, 0, got, p);
      AtBound(data, 0, PutSignedFirst(got));
      AtLonger(data, whole, PutSignedFirst(got));
      AtCat(whole, 0, PutSignatureVec(got.signatures), PutMessage(got.message));
      AtCat(whole, 0, PutSignatureVec(tx.signatures), PutMessage(tx.message));
      FrontAgrees(whole, got, tx);
    }
  }

  /** Two front-signed readings of one buffer agree in length. */
  lemma FrontAgrees(whole: seq<byte>, got: Tx, tx: Tx)
    requires Canonical(got.message) && Canonical(tx.message)
    requires |tx.signatures| <= 0xFFFF && |got.signatures| <= 0xFFFF
    requires At(whole, 0, PutSignatureVec(got.signatures)) && At(whole, 0, PutSignatureVec(tx.signatures))
    requires At(whole, |PutSignatureVec(got.signatures)|, PutMessage(got.message))
    requires At(whole, |PutSignatureVec(tx.signatures)|, PutMessage(tx.message))
    ensures got == tx
  {
    hide At, GetMessage, PutMessage, Canonical, GetSignatureVec, PutSignatureVec;
    GetSignatureVecExact(whole, 0, got.signatures);
    GetSignatureVecExact(whole, 0, tx.signatures);
    var p := |PutSignatureVec(tx.signatures)|;
    GetMessageComplete(whole, p, got.message);
    GetMessageComplete(whole, p, tx.message);
  }

  /**
   Decoding a transaction accepts exactly two forms, told apart by the first byte: a v1 message followed
   by as many signatures as its header requires, and a counted list of signatures followed by a message
   of any version.
   */
  lemma DecodingIsExact(buf: seq<byte>, pos: nat, tx: Tx, p: nat)
    requires pos < |buf|
    ensures GetTx(buf, pos) == Ok(tx, p) <==>
            if buf[pos] == 0x81 then
              && Canonical(tx.message) && tx.message.version == VERSION_1
              && |tx.signatures| == tx.message.header.numRequiredSignatures
              && At(buf, pos, PutSignedLast(tx)) && p == pos + |PutSignedLast(tx)|
            else
              && Canonical(tx.message) && |tx.signatures| <= 0xFFFF
              && At(buf, pos, PutSignedFirst(tx)) && p == pos + |PutSignedFirst(tx)|
  {
    hide At, GetMessage, PutMessage, Canonical, GetSignatures, PutSignatures, GetSignatureVec, PutSignatureVec;
    var m, sigs := tx.message, tx.signatures;
    if GetTx(buf, pos) == Ok(tx, p) {
      if buf[pos] == 0x81 {
        GetTxSoundLast(buf, pos, tx, p);
      } else {
        GetTxSoundFirst(buf, pos, tx, p);
      }
    }
    if Canonical(m) && buf[pos] == 0x81 && At(buf, pos, PutSignedLast(tx)) {
      AtCat(buf, pos, PutMessage(m), PutSignatures(sigs));
      AtBound(buf, pos, PutMessage(m));
      GetMessageComplete(buf, pos, m);
      GetSignaturesExact(m.header.numRequiredSignatures, buf, pos + |PutMessage(m)|, sigs);
    }
    if Canonical(m) && buf[pos] != 0x81 && At(buf, pos, PutSignedFirst(tx)) {
      AtCat(buf, pos, PutSignatureVec(sigs), PutMessage(m));
      GetSignatureVecExact(buf, pos, sigs);
      GetMessageComplete(buf, pos + |PutSignatureVec(sigs)|, m);
    }
  }

  /** The transaction read at pos is a v1 message behind leading signatures. */
  predicate FrontSignedV1(buf: seq<byte>, pos: nat) {
    pos < |buf| && buf[pos] != 0x81 && GetTx(buf, pos).Ok? && GetTx(buf, pos).value.message.version == VERSION_1
  }

  /** What was read is the encoding of the transaction, or, for a v1 message so signed, longer than it. */
  lemma ReadOrLonger(buf: seq<byte>, pos: nat)
    requires GetTx(buf, pos).Ok?
    ensures var Ok(tx, p) := GetTx(buf, pos);
            && p <= |buf|
            && if FrontSignedV1(buf, pos) then p > pos + |PutTx(tx)|
               else At(buf, pos, PutTx(tx)) && p == pos + |PutTx(tx)|
  {
    hide At, GetMessage, PutMessage, Canonical, GetSignatures, PutSignatures, GetSignatureVec, GetTx;
    NonEmptyRead(buf, pos);
    var Ok(tx, p) := GetTx(buf, pos);
    DecodingIsExact(buf, pos, tx, p);
    if buf[pos] == 0x81 {
      AtBound(buf, pos, PutSignedLast(tx));
    } else {
      AtBound(buf, pos, PutSignedFirst(tx));
      CountedLonger(tx.signatures);
    }
  }

  lemma NonEmptyRead(buf: seq<byte>, pos: nat)
    requires GetTx(buf, pos).Ok?
    ensures pos < |buf|
  {
  }

  lemma CountedLonger(sigs: seq<Signature>)
    ensures |PutSignatureVec(sigs)| > |PutSignatures(sigs)|
  {
  }

  /**
   Accepted bytes whose transaction can be marshalled again are reproduced, unless a v1 message was
   accepted behind leading signatures; marshalling puts the signatures of v1 behind it.
   */
  lemma TxReencoding(data: seq<byte>)
    requires UnmarshalTx(data).Success?
    requires MarshalTx(UnmarshalTx(data).value).Success?
    ensures MarshalTx(UnmarshalTx(data).value) == Success(data) <==>
            (UnmarshalTx(data).value.message.version == VERSION_1 ==> data[0] == 0x81)
  {
    var tx := UnmarshalTx(data).value;
    hide At, Canonical, GetTx, PutMessage, PutSignatures, PutSignatureVec;
    if data[0] == 0x81 {
      GetTxSoundLast(data, 0, tx, |data|);
      AtAll(data, PutSignedLast(tx));
    } else {
      GetTxSoundFirst(data, 0, tx, |data|);
      AtAll(data, PutSignedFirst(tx));
      if tx.message.version == VERSION_1 {
        AtWhole(PutMessage(tx.message), PutSignatures(tx.signatures));
        FirstByteOfV1(PutSignedLast(tx), 0, tx.message);
      }
    }
  }

  lemma AtAll(buf: seq<byte>, e: seq<byte>)
    requires At(buf, 0, e) && |e| == |buf|
    ensures buf == e
  {
    assert buf[0..|e|] == buf;
  }

  const ZERO_HASH: Hash := ZeroBytes(32)

  /** An empty v1 message that requires no signature. */
  const BARE_V1 := Message(VERSION_1, MessageHeader(0, 0, 0), [], ZERO_HASH, [], [], Some(EMPTY_CONFIG))

  /** A zero count in front of a v1 message is accepted, although no transaction is marshalled so. */
  lemma FrontSignedV1IsAccepted()
    ensures var data := [0] + PutMessage(BARE_V1);
            && UnmarshalTx(data) == Success(Tx([], BARE_V1))
            && MarshalTx(Tx([], BARE_V1)).Success?
            && MarshalTx(Tx([], BARE_V1)) != Success(data)
  {
    var data: seq<byte> := [0] + PutMessage(BARE_V1);
    assert Canonical(BARE_V1);
    assert MarshalTx(Tx([], BARE_V1)).Success?;
    hide Canonical, GetMessage, PutMessage;
    AtWhole([0], PutMessage(BARE_V1));
    assert GetSignatureVec(data, 0) == Ok([], 1);
    assert data[1..|data|] == PutMessage(BARE_V1);
    GetMessageComplete(data, 1, BARE_V1);
    TxReencoding(data);
  }

  // ---------------------------------------------------------------- what is refused

  /**
   Which transactions marshal, and how each of the others is refused: a transaction is written only with
   exactly as many signatures as its message requires.
   */
  lemma MarshalsExactly(tx: Tx)
    ensures var m, n := tx.message, |tx.signatures|;
            var signed := n == m.header.numRequiredSignatures;
            && (MarshalTx(tx).Success? <==> signed && WellFormed(m) && CountsFit(m))
            && (MarshalTx(tx) == Failure(SignatureCountMismatch) <==> n <= 65535 && WellFormed(m) && !signed)
            && (MarshalTx(tx) == Failure(UnsupportedVersion) <==> n <= 65535 && m.version !in {0xFF, 0, 1})
            && (MarshalTx(tx) == Failure(UnexpectedLookups) <==>
                n <= 65535 && m.version in {0xFF, 1} && m.lookups != [])
            && (MarshalTx(tx) == Failure(TooLong) <==> n > 65535 || (signed && WellFormed(m) && !CountsFit(m)))
  {
    hide Fits, CountsFit, PutTx;
    FitsExactly(tx.message);
  }

  /** What a stream can carry and give back, in terms of marshalling. */
  lemma TransmissibleExactly(tx: Tx)
    ensures Transmissible(tx) <==> MarshalTx(tx).Success? && Representable(tx.message) && !LooksLikeV1(tx)
  {
    hide Fits, PutTx;
  }

  /** Input that cannot be one whole transaction, and how it is refused. */
  lemma UnmarshalRefuses(data: seq<byte>, tx: Tx)
    ensures UnmarshalTx([]) == Failure(EmptyInput)
    ensures Transmissible(tx) && PutTx(tx) < data ==> UnmarshalTx(data) == Failure(TrailingBytes)
    ensures Transmissible(tx) && data < PutTx(tx) ==> UnmarshalTx(data).Failure?
  {
    hide PutTx, GetTx, Transmissible;
    if Transmissible(tx) && PutTx(tx) < data {
      assert data[0..|PutTx(tx)|] == PutTx(tx);
      GetTxComplete(data, 0, tx);
    }
    if Transmissible(tx) && data < PutTx(tx) {
      NoProperPrefixDecodes(tx, data);
    }
  }
}

/**
 The message codec as a whole: what marshalling and decoding of the three versions (message.go) do,
 and the round-trip theorems.
 */
module MessageCodec {
  import opened Wire
  import opened Message
  import opened MessageV1

  // ---------------------------------------------------------------- specification

  /** The version byte: absent for a legacy message. */
  function PutPrefix(version: byte): (r: seq<byte>) {
    if version == VERSION_LEGACY then [] else [128 + version % 128]
  }

  function PutMessage(m: Message): (r: seq<byte>) {
    if m.version == VERSION_1 then PutPrefix(VERSION_1) + PutBodyV1(m)
    else PutPrefix(m.version) + PutBody(m)
  }

  function GetMessage(buf: seq<byte>, pos: nat): (r: Parsed<Message>) {
    if pos >= |buf| then Err(ShortBuffer)
    else
      var first := buf[pos];
      if first == 0x81 then GetBodyV1(buf, pos + 1)
      else if first < 128 then GetBody(VERSION_LEGACY, buf, pos)
      else if first - 128 > 1 then Err(UnsupportedVersion)
      else GetBody(first - 128, buf, pos + 1)
  }

  /** Every length of m fits the field that carries it. */
  ghost predicate Fits(m: Message) {
    if m.version == VERSION_1 then FitsV1(m)
    else
      && |m.accountKeys| <= 0xFFFF
      && InstructionsFit(m.instructions)
      && (m.version == VERSION_0 ==> LookupsFit(VERSION_0, m.lookups))
  }

  ghost function Marshal(m: Message): (r: Result<seq<byte>>) {
    match Validate(m)
    case Some(e) => Failure(e)
    case None => if Fits(m) then Success(PutMessage(m)) else Failure(TooLong)
  }

  function Unmarshal(data: seq<byte>): (r: Result<Message>) {
    if |data| == 0 then Failure(EmptyInput)
    else
      match GetMessage(data, 0)
      case Err(e) => Failure(e)
      case Ok(m, p) => if p == |data| then Success(m) else Failure(TrailingBytes)
  }

  /**
   What a caller can check to know that m survives the wire unchanged: a legacy message needs fewer
   than 128 signers, only v1 writes a configuration, and v1 always reads one back.
   */
  predicate Representable(m: Message) {
    if m.version == VERSION_1 then m.config.Some?
    else m.config.None? && (m.version == VERSION_LEGACY ==> m.header.numRequiredSignatures < 128)
  }

  ghost predicate Canonical(m: Message) {
    Validate(m).None? && Fits(m) && Representable(m)
  }

  // ---------------------------------------------------------------- decoding is exact

  lemma PrefixAt(buf: seq<byte>, pos: nat, v: byte, rest: seq<byte>)
    ensures At(buf, pos, [v] + rest) <==> pos < |buf| && buf[pos] == v && At(buf, pos + 1, rest)
  {
    AtCat(buf, pos, [v], rest);
    GetU8Exact(buf, pos, v);
  }

  lemma LegacyAt(buf: seq<byte>, pos: nat, m: Message)
    requires At(buf, pos, PutBody(m))
    ensures pos < |buf| && buf[pos] == m.header.numRequiredSignatures
  {
    BodyAt(buf, pos, m);
    assert buf[pos..pos + 3][0] == m.header.numRequiredSignatures;
  }

  lemma GetMessageSound(buf: seq<byte>, pos: nat, m: Message, p: nat)
    requires GetMessage(buf, pos) == Ok(m, p)
    ensures Canonical(m) && At(buf, pos, PutMessage(m)) && p == pos + |PutMessage(m)|
  {
    hide At, GetBody, GetBodyV1, PutBody, PutBodyV1, FitsV1, InstructionsFit;
    var first := buf[pos];
    if first == 0x81 {
      GetBodyV1Sound(buf, pos + 1, m, p);
      PrefixAt(buf, pos, first, PutBodyV1(m));
    } else if first < 128 {
      GetBodySound(VERSION_LEGACY, buf, pos, m, p);
      LegacyAt(buf, pos, m);
      assert PutPrefix(VERSION_LEGACY) + PutBody(m) == PutBody(m);
    } else {
      GetBodySound(first - 128, buf, pos + 1, m, p);
      PrefixAt(buf, pos, first, PutBody(m));
    }
  }

  lemma GetMessageComplete(buf: seq<byte>, pos: nat, m: Message)
    requires Canonical(m) && At(buf, pos, PutMessage(m))
    ensures GetMessage(buf, pos) == Ok(m, pos + |PutMessage(m)|)
  {
    hide At, GetBody, GetBodyV1, PutBody, PutBodyV1, FitsV1, InstructionsFit;
    if m.version == VERSION_1 {
      PrefixAt(buf, pos, 0x81, PutBodyV1(m));
      GetBodyV1Complete(buf, pos + 1, m);
    } else if m.version == VERSION_LEGACY {
      assert PutPrefix(VERSION_LEGACY) + PutBody(m) == PutBody(m);
      LegacyAt(buf, pos, m);
      GetBodyComplete(VERSION_LEGACY, buf, pos, m);
    } else {
      assert PutMessage(m) == [0x80] + PutBody(m);
      PrefixAt(buf, pos, 0x80, PutBody(m));
      GetBodyComplete(VERSION_0, buf, pos + 1, m);
    }
  }

  /** Decoding accepts exactly the encodings of canonical messages, wherever they stand in a stream. */
  lemma DecodingIsExact(buf: seq<byte>, pos: nat, m: Message, p: nat)
    ensures GetMessage(buf, pos) == Ok(m, p) <==>
            Canonical(m) && At(buf, pos, PutMessage(m)) && p == pos + |PutMessage(m)|
  {
    hide At, GetMessage, PutMessage, Canonical;
    if GetMessage(buf, pos) == Ok(m, p) {
      GetMessageSound(buf, pos, m, p);
    }
    if Canonical(m) && At(buf, pos, PutMessage(m)) {
      GetMessageComplete(buf, pos, m);
    }
  }

  lemma MessagesLawful()
    ensures Lawful(GetMessage, PutMessage, m => Canonical(m))
  {
    hide At, GetMessage, PutMessage, Canonical;
    forall buf: seq<byte>, pos: nat | GetMessage(buf, pos).Ok?
      ensures Canonical(GetMessage(buf, pos).value)
      ensures At(buf, pos, PutMessage(GetMessage(buf, pos).value))
      ensures GetMessage(buf, pos).pos == pos + |PutMessage(GetMessage(buf, pos).value)|
    {
      GetMessageSound(buf, pos, GetMessage(buf, pos).value, GetMessage(buf, pos).pos);
    }
    forall buf: seq<byte>, pos: nat, m | Canonical(m) && At(buf, pos, PutMessage(m))
      ensures GetMessage(buf, pos) == Ok(m, pos + |PutMessage(m)|)
    {
      GetMessageComplete(buf, pos, m);
    }
  }

  /** Messages are self-delimiting: no proper prefix of a canonical message's encoding decodes. */
  lemma NoProperPrefixDecodes(m: Message, data: seq<byte>)
    requires Canonical(m) && data < PutMessage(m)
    ensures GetMessage(data, 0).Err?
  {
    hide GetMessage, PutMessage, Canonical;
    MessagesLawful();
    LawfulPrefixFree(GetMessage, PutMessage, x => Canonical(x), m, data);
  }

  // ---------------------------------------------------------------- round trips

  lemma MessageNonEmpty(m: Message)
    ensures |PutMessage(m)| > 0
  {
  }

  lemma UnmarshalOfCanonical(m: Message)
    requires Canonical(m)
    ensures Unmarshal(PutMessage(m)) == Success(m)
  {
    MessageNonEmpty(m);
    var e := PutMessage(m);
    assert e[0..|e|] == e;
    GetMessageComplete(e, 0, m);
  }

  lemma ConfigIrrelevant(m: Message, config: Option<TransactionConfig>)
    requires m.version != VERSION_1
    ensures PutMessage(m.(config := config)) == PutMessage(m)
  {
  }

  lemma ConfigNormal(m: Message)
    requires m.version == VERSION_1
    ensures PutMessage(m.(config := Some(ConfigOf(m)))) == PutMessage(m)
  {
    assert ConfigOf(m.(config := Some(ConfigOf(m)))) == ConfigOf(m);
    assert HeadOf(m.(config := Some(ConfigOf(m)))) == HeadOf(m);
  }

  /** The value that decoding returns for the bytes of a message that marshals and has fewer than 128 signers. */
  function Normal(m: Message): (r: Message) {
    m.(config := if m.version == VERSION_1 then Some(ConfigOf(m)) else None)
  }

  /** A decoded message is never the unrepresentable one that was written. */
  lemma UnmarshalIsCanonical(data: seq<byte>)
    requires Unmarshal(data).Success?
    ensures Canonical(Unmarshal(data).value)
    ensures PutMessage(Unmarshal(data).value) == data
  {
    var r := GetMessage(data, 0);
    GetMessageSound(data, 0, r.value, r.pos);
    assert data[0..|data|] == data;
  }

  /** A marshalled message reads back equal if and only if it is representable. */
  lemma RoundTrip(m: Message)
    requires Marshal(m).Success?
    ensures Unmarshal(Marshal(m).value) == Success(m) <==> Representable(m)
  {
    var e := PutMessage(m);
    if Representable(m) {
      UnmarshalOfCanonical(m);
    } else if Unmarshal(e).Success? {
      UnmarshalIsCanonical(e);
    }
  }

  /**
   Without the representability condition decoding still returns the message up to its configuration,
   unless a legacy message has 128 signers or more.
   */
  lemma RoundTripNormal(m: Message)
    requires Marshal(m).Success?
    requires m.version == VERSION_LEGACY ==> m.header.numRequiredSignatures < 128
    ensures Unmarshal(Marshal(m).value) == Success(Normal(m))
  {
    assert Canonical(Normal(m));
    UnmarshalOfCanonical(Normal(m));
    if m.version == VERSION_1 {
      ConfigNormal(m);
    } else {
      ConfigIrrelevant(m, None);
    }
  }

  /** A message and its normal form marshal to the same bytes, and the normal form is representable. */
  lemma NormalMarshalsAlike(m: Message)
    ensures Marshal(Normal(m)) == Marshal(m)
    ensures (m.version == VERSION_LEGACY ==> m.header.numRequiredSignatures < 128) ==> Representable(Normal(m))
  {
    if m.version == VERSION_1 {
      ConfigNormal(m);
    } else {
      ConfigIrrelevant(m, None);
    }
  }

  /** Accepted bytes are reproduced exactly: there is one encoding per message. */
  lemma ReencodingIsIdentity(data: seq<byte>)
    requires Unmarshal(data).Success?
    ensures Marshal(Unmarshal(data).value) == Success(data)
  {
    UnmarshalIsCanonical(data);
  }

  // ---------------------------------------------------------------- what is refused

  /** The version is one that has a layout, and only v0 messages have lookups. */
  predicate WellFormed(m: Message) {
    m.version == 0 || ((m.version == 0xFF || m.version == 1) && m.lookups == [])
  }

  /** Every count fits its field: a compact-u16, or in a v1 message a byte and sixteen bits for data. */
  ghost predicate CountsFit(m: Message) {
    if m.version == 1 then
      && |m.accountKeys| <= 255 && |m.instructions| <= 255
      && forall ix :: ix in m.instructions ==> |ix.accounts| <= 255 && |ix.data| <= 65535
    else
      && |m.accountKeys| <= 65535 && |m.instructions| <= 65535
      && (forall ix :: ix in m.instructions ==> |ix.accounts| <= 65535 && |ix.data| <= 65535)
      && (m.version == 0 ==>
            && |m.lookups| <= 65535
            && forall lk :: lk in m.lookups ==> |lk.writableIndexes| <= 65535 && |lk.readonlyIndexes| <= 65535)
  }

  lemma FitsExactly(m: Message)
    ensures Fits(m) <==> CountsFit(m)
  {
    hide Validate;
  }

  /** Which messages marshal, and how each of the others is refused. */
  lemma MarshalsExactly(m: Message)
    ensures Marshal(m).Success? <==> WellFormed(m) && CountsFit(m)
    ensures Marshal(m) == Failure(UnsupportedVersion) <==> m.version !in {0xFF, 0, 1}
    ensures Marshal(m) == Failure(UnexpectedLookups) <==> m.version in {0xFF, 1} && m.lookups != []
    ensures Marshal(m) == Failure(TooLong) <==> WellFormed(m) && !CountsFit(m)
  {
    hide Fits, CountsFit, PutMessage;
    FitsExactly(m);
  }

  /** Input that cannot be one whole message, and how it is refused. */
  lemma UnmarshalRefuses(data: seq<byte>, m: Message)
    ensures Unmarshal([]) == Failure(EmptyInput)
    ensures |data| > 0 && data[0] > 0x81 ==> Unmarshal(data) == Failure(UnsupportedVersion)
    ensures Canonical(m) && PutMessage(m) < data ==> Unmarshal(data) == Failure(TrailingBytes)
    ensures Canonical(m) && data < PutMessage(m) ==> Unmarshal(data).Failure?
  {
    hide GetBody, GetBodyV1, PutMessage, Canonical;
    if Canonical(m) && PutMessage(m) < data {
      assert data[0..|PutMessage(m)|] == PutMessage(m);
      GetMessageComplete(data, 0, m);
    }
    if Canonical(m) && data < PutMessage(m) {
      NoProperPrefixDecodes(m, data);
    }
  }

  /** A v1 message whose mask has an unknown bit, or only one of the two priority-fee bits, is refused. */
  lemma UnknownMaskRefused(data: seq<byte>)
    requires |data| >= 8 && data[0] == 0x81
    requires data[4] >= 32 || data[5] != 0 || data[6] != 0 || data[7] != 0 || data[4] % 4 == 1 || data[4] % 4 == 2
    ensures Unmarshal(data) == Failure(InvalidConfigMask)
  {
    MaskBytes(data);
    hide LEValue, GetAllKeys, GetConfig, GetMetas, GetPayloads, MaskValid;
  }

  lemma MaskBytes(data: seq<byte>)
    requires |data| >= 8
    ensures var a: int, b: int, c: int, d: int := data[4], data[5], data[6], data[7];
            LEValue(data[4..8]) == a + 0x100 * b + 0x1_0000 * c + 0x100_0000 * d < 0x1_0000_0000
    ensures var mask := LEValue(data[4..8]);
            data[4] >= 32 || data[5] != 0 || data[6] != 0 || data[7] != 0 || data[4] % 4 == 1 || data[4] % 4 == 2 ==>
              !MaskValid(mask)
  {
    var b := data[4..8];
    assert b[1..][1..][1..] == [b[3]] && b[1..][1..] == [b[2], b[3]] && b[1..] == [b[1], b[2], b[3]];
    assert LEValue([b[3]]) == b[3] + 256 * LEValue([b[3]][1..]);
    assert LEValue([b[2], b[3]]) == b[2] + 256 * LEValue([b[3]]);
    assert LEValue([b[1], b[2], b[3]]) == b[1] + 256 * LEValue([b[2], b[3]]);
  }
}

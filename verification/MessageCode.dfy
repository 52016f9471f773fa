/**
 The marshalling, sizing and decoding loops of message.go and message_v1.go, each proved to do what
 module MessageCodec specifies.
 */
module MessageCode {
  import opened Wire
  import opened Bincode
  import opened Message
  import opened MessageV1
  import opened MessageCodec

  // ---------------------------------------------------------------- sizes

  function SvSize(n: nat): (size: nat)
    ensures size == |Shortvec(n)|
  {
    if n < 128 then 1 else if n < 16384 then 2 else 3
  }

  /** The size computed without encoding is the length of the encoding. */
  method SerializedSize(m: Message) returns (sz: nat)
    ensures Validate(m).None? ==> sz == |PutMessage(m)|
  {
    if m.version == VERSION_1 {
      sz := SerializedSizeV1(m);
      return;
    }
    sz := 3;
    if m.version != VERSION_LEGACY {
      sz := sz + 1;
    }
    PutAllLength(PutKey, m.accountKeys, 32);
    sz := sz + SvSize(|m.accountKeys|) + |m.accountKeys| * 32;
    sz := sz + 32;
    sz := sz + SvSize(|m.instructions|);
    ghost var fixed := sz;
    for i := 0 to |m.instructions|
      invariant sz == fixed + |PutAll(PutInstruction, m.instructions[..i])|
    {
      var ix := m.instructions[i];
      PutAllStep(PutInstruction, m.instructions, i);
      sz := sz + 1 + SvSize(|ix.accounts|) + |ix.accounts| + SvSize(|ix.data|) + |ix.data|;
    }
    assert m.instructions[..|m.instructions|] == m.instructions;
    if m.version == VERSION_0 {
      sz := sz + SvSize(|m.lookups|);
      ghost var upToCount := sz;
      for i := 0 to |m.lookups|
        invariant sz == upToCount + |PutAll(PutLookup, m.lookups[..i])|
      {
        var lk := m.lookups[i];
        PutAllStep(PutLookup, m.lookups, i);
        sz := sz + 32 + SvSize(|lk.writableIndexes|) + |lk.writableIndexes|
              + SvSize(|lk.readonlyIndexes|) + |lk.readonlyIndexes|;
      }
      assert m.lookups[..|m.lookups|] == m.lookups;
    }
  }

  method SerializedSizeV1(m: Message) returns (size: nat)
    ensures size == 1 + |PutBodyV1(m)|
  {
    PutAllLength(PutKey, m.accountKeys, 32);
    size := 1 + 3 + 4 + 32 + 1 + 1 + |m.accountKeys| * 32;
    if m.config.Some? {
      var c := m.config.value;
      if c.priorityFee.Some? {
        size := size + 8;
      }
      if c.computeUnitLimit.Some? {
        size := size + 4;
      }
      if c.loadedAccountsDataSizeLimit.Some? {
        size := size + 4;
      }
      if c.heapSize.Some? {
        size := size + 4;
      }
    }
    ghost var fixed := size;
    assert fixed == 1 + |PutHead(HeadOf(m))| + |PutAllKeys(m.accountKeys)| + |PutConfig(ConfigOf(m))|;
    PutAllLength(PutMeta, MetasOf(m.instructions), 4);
    for i := 0 to |m.instructions|
      invariant size == fixed + 4 * i + |PutAll(PutPayload, m.instructions[..i])|
    {
      PutAllStep(PutPayload, m.instructions, i);
      size := size + 4 + |m.instructions[i].accounts| + |m.instructions[i].data|;
    }
    assert m.instructions[..|m.instructions|] == m.instructions;
  }

  // ---------------------------------------------------------------- marshalling

  method WriteKeys(ks: seq<PublicKey>, e: Encoder)
    modifies e
    ensures e.buf == old(e.buf) + PutAll(PutKey, ks)
  {
    for i := 0 to |ks|
      invariant e.buf == old(e.buf) + PutAll(PutKey, ks[..i])
    {
      PutAllStep(PutKey, ks, i);
      e.WriteBytes(ks[i]);
    }
    assert ks[..|ks|] == ks;
  }

  /** Appends a compact-u16 counted byte string, unless it is too long to count. */
  method WriteByteVec(b: seq<byte>, e: Encoder) returns (r: Result<()>)
    modifies e
    ensures r == if |b| <= 0xFFFF then Success(()) else Failure(TooLong)
    ensures r.Success? ==> e.buf == old(e.buf) + PutByteVec(b)
  {
    if |b| > 0xFFFF {
      return Failure(TooLong);
    }
    e.WriteShortvec(|b|);
    e.WriteBytes(b);
    return Success(());
  }

  method WriteInstruction(ix: CompiledInstruction, e: Encoder) returns (r: Result<()>)
    modifies e
    ensures r == if InstructionFits(ix) then Success(()) else Failure(TooLong)
    ensures r.Success? ==> e.buf == old(e.buf) + PutInstruction(ix)
  {
    hide PutByteVec;
    e.WriteUint8(ix.programIdIndex);
    var _ :- WriteByteVec(ix.accounts, e);
    var _ :- WriteByteVec(ix.data, e);
    return Success(());
  }

  method WriteInstructions(ixs: seq<CompiledInstruction>, e: Encoder) returns (r: Result<()>)
    modifies e
    ensures r == if AllOk(InstructionFits, ixs) then Success(()) else Failure(TooLong)
    ensures r.Success? ==> e.buf == old(e.buf) + PutAll(PutInstruction, ixs)
  {
    hide PutInstruction;
    for i := 0 to |ixs|
      invariant AllOk(InstructionFits, ixs[..i])
      invariant e.buf == old(e.buf) + PutAll(PutInstruction, ixs[..i])
    {
      PutAllStep(PutInstruction, ixs, i);
      var _ :- WriteInstruction(ixs[i], e);
    }
    assert ixs[..|ixs|] == ixs;
    return Success(());
  }

  method WriteLookup(lk: AddressTableLookup, e: Encoder) returns (r: Result<()>)
    modifies e
    ensures r == if LookupFits(lk) then Success(()) else Failure(TooLong)
    ensures r.Success? ==> e.buf == old(e.buf) + PutLookup(lk)
  {
    hide PutByteVec;
    e.WriteBytes(lk.accountKey);
    var _ :- WriteByteVec(lk.writableIndexes, e);
    var _ :- WriteByteVec(lk.readonlyIndexes, e);
    return Success(());
  }

  method WriteLookups(lks: seq<AddressTableLookup>, e: Encoder) returns (r: Result<()>)
    modifies e
    ensures r == if AllOk(LookupFits, lks) then Success(()) else Failure(TooLong)
    ensures r.Success? ==> e.buf == old(e.buf) + PutAll(PutLookup, lks)
  {
    hide PutLookup;
    for i := 0 to |lks|
      invariant AllOk(LookupFits, lks[..i])
      invariant e.buf == old(e.buf) + PutAll(PutLookup, lks[..i])
    {
      PutAllStep(PutLookup, lks, i);
      var _ :- WriteLookup(lks[i], e);
    }
    assert lks[..|lks|] == lks;
    return Success(());
  }

  method WriteHeader(h: MessageHeader, e: Encoder)
    modifies e
    ensures e.buf == old(e.buf) + PutHeader(h)
  {
    e.WriteUint8(h.numRequiredSignatures);
    e.WriteUint8(h.numReadonlySignedAccounts);
    e.WriteUint8(h.numReadonlyUnsignedAccounts);
  }

  /** Appends the encoding of a validated message, or refuses one with a length too large for its field. */
  method MarshalInto(m: Message, e: Encoder) returns (r: Result<()>)
    requires Validate(m).None?
    modifies e
    ensures r == if Fits(m) then Success(()) else Failure(TooLong)
    ensures r.Success? ==> e.buf == old(e.buf) + PutMessage(m)
  {
    if m.version == VERSION_1 {
      r := MarshalV1Into(m, e);
      return;
    }
    ghost var start := e.buf;
    if m.version != VERSION_LEGACY {
      e.WriteUint8(128 + m.version % 128);
    }
    assert e.buf == start + PutPrefix(m.version);
    hide PutPrefix, PutHeader, PutInstructions, PutLookups, PutMessage, PutAll, InstructionsFit, LookupsFit;
    WriteHeader(m.header, e);
    if |m.accountKeys| > 0xFFFF {
      return Failure(TooLong);
    }
    WriteKeyVec(m.accountKeys, e);
    e.WriteBytes(m.recentBlockhash);
    var _ :- WriteInstructionVec(m.instructions, e);
    if m.version == VERSION_0 {
      var _ :- WriteLookupVec(m.lookups, e);
    } else {
      assert PutLookups(m.version, m.lookups) == [] && e.buf + [] == e.buf;
    }
    JoinBody(start, m);
    return Success(());
  }

  method WriteKeyVec(ks: seq<PublicKey>, e: Encoder)
    requires |ks| <= 0xFFFF
    modifies e
    ensures e.buf == old(e.buf) + PutKeys(ks)
  {
    e.WriteShortvec(|ks|);
    WriteKeys(ks, e);
  }

  method WriteInstructionVec(ixs: seq<CompiledInstruction>, e: Encoder) returns (r: Result<()>)
    modifies e
    ensures r == if InstructionsFit(ixs) then Success(()) else Failure(TooLong)
    ensures r.Success? ==> e.buf == old(e.buf) + PutInstructions(ixs)
  {
    if |ixs| > 0xFFFF {
      return Failure(TooLong);
    }
    e.WriteShortvec(|ixs|);
    r := WriteInstructions(ixs, e);
  }

  method WriteLookupVec(lks: seq<AddressTableLookup>, e: Encoder) returns (r: Result<()>)
    modifies e
    ensures r == if LookupsFit(VERSION_0, lks) then Success(()) else Failure(TooLong)
    ensures r.Success? ==> e.buf == old(e.buf) + PutLookups(VERSION_0, lks)
  {
    if |lks| > 0xFFFF {
      return Failure(TooLong);
    }
    e.WriteShortvec(|lks|);
    r := WriteLookups(lks, e);
  }

  lemma JoinBody(start: seq<byte>, m: Message)
    requires m.version != VERSION_1
    ensures start + PutPrefix(m.version) + PutHeader(m.header) + PutKeys(m.accountKeys) + m.recentBlockhash
            + PutInstructions(m.instructions) + PutLookups(m.version, m.lookups)
            == start + PutMessage(m)
  {
    hide PutPrefix, PutHeader, PutKeys, PutInstructions, PutLookups;
  }

  method WriteOptU32(o: Option<u32>, e: Encoder)
    modifies e
    ensures e.buf == old(e.buf) + PutOptU32(o)
  {
    if o.Some? {
      e.WriteUint32(o.value);
    }
  }

  method WriteOptU64(o: Option<u64>, e: Encoder)
    modifies e
    ensures e.buf == old(e.buf) + PutOptU64(o)
  {
    if o.Some? {
      e.WriteUint64(o.value);
    }
  }

  method MarshalV1Into(m: Message, e: Encoder) returns (r: Result<()>)
    modifies e
    ensures r == if FitsV1(m) then Success(()) else Failure(TooLong)
    ensures r.Success? ==> e.buf == old(e.buf) + (PutPrefix(VERSION_1) + PutBodyV1(m))
    ensures r.Failure? ==> e.buf == old(e.buf)
  {
    if |m.accountKeys| > 255 || |m.instructions| > 255 {
      return Failure(TooLong);
    }
    for i := 0 to |m.instructions|
      invariant InstructionsFitV1(m.instructions[..i])
    {
      var ix := m.instructions[i];
      if |ix.accounts| > 255 || |ix.data| > 65535 {
        assert !InstructionFitsV1(m.instructions[i]);
        return Failure(TooLong);
      }
    }
    assert m.instructions[..|m.instructions|] == m.instructions;
    ghost var start := e.buf;
    e.WriteUint8(0x81);
    assert e.buf == start + PutPrefix(VERSION_1);
    hide PutPrefix, PutHead, PutHeader, PutConfig, PutMetas, PutPayloads, MetasOf, PutBodyV1, ConfigMask;
    WriteHead(m, e);
    WriteKeys(m.accountKeys, e);
    WriteConfig(m, e);
    WriteMetas(m.instructions, e);
    WritePayloads(m.instructions, e);
    JoinBodyV1(start, m);
    return Success(());
  }

  method WriteHead(m: Message, e: Encoder)
    requires |m.accountKeys| <= 255 && |m.instructions| <= 255
    modifies e
    ensures e.buf == old(e.buf) + PutHead(HeadOf(m))
  {
    hide PutHeader, ConfigMask;
    WriteHeader(m.header, e);
    e.WriteUint32(ConfigMask(ConfigOf(m)));
    e.WriteBytes(m.recentBlockhash);
    e.WriteUint8(|m.instructions|);
    e.WriteUint8(|m.accountKeys|);
  }

  method WriteFields(c: TransactionConfig, e: Encoder)
    modifies e
    ensures e.buf == old(e.buf) + PutConfig(c)
  {
    hide PutOptU64, PutOptU32;
    ghost var start, a, u, d, h := e.buf, PutOptU64(c.priorityFee), PutOptU32(c.computeUnitLimit),
                                   PutOptU32(c.loadedAccountsDataSizeLimit), PutOptU32(c.heapSize);
    WriteOptU64(c.priorityFee, e);
    WriteOptU32(c.computeUnitLimit, e);
    WriteOptU32(c.loadedAccountsDataSizeLimit, e);
    WriteOptU32(c.heapSize, e);
    assert start + a + u + d + h == start + (a + (u + (d + h)));
  }

  method WriteConfig(m: Message, e: Encoder)
    modifies e
    ensures e.buf == old(e.buf) + PutConfig(ConfigOf(m))
  {
    if m.config.Some? {
      WriteFields(m.config.value, e);
    } else {
      assert PutConfig(EMPTY_CONFIG) == [];
    }
  }

  lemma JoinBodyV1(start: seq<byte>, m: Message)
    ensures start + PutPrefix(VERSION_1) + PutHead(HeadOf(m)) + PutAllKeys(m.accountKeys) + PutConfig(ConfigOf(m))
            + PutMetas(MetasOf(m.instructions)) + PutPayloads(m.instructions)
            == start + (PutPrefix(VERSION_1) + PutBodyV1(m))
  {
    hide PutPrefix, PutHead, PutAllKeys, PutConfig, PutMetas, PutPayloads, MetasOf, HeadOf, ConfigOf;
  }

  method WriteMeta(ix: CompiledInstruction, e: Encoder)
    requires InstructionFitsV1(ix)
    modifies e
    ensures e.buf == old(e.buf) + PutMeta(MetaOf(ix))
  {
    hide LE;
    ghost var start := e.buf;
    e.WriteUint8(ix.programIdIndex);
    e.WriteUint8(|ix.accounts|);
    e.WriteUint16(|ix.data|);
    assert e.buf == start + PutMeta(MetaOf(ix));
  }

  method WriteMetas(ixs: seq<CompiledInstruction>, e: Encoder)
    requires InstructionsFitV1(ixs)
    modifies e
    ensures e.buf == old(e.buf) + PutMetas(MetasOf(ixs))
  {
    ghost var metas := MetasOf(ixs);
    for i := 0 to |ixs|
      invariant e.buf == old(e.buf) + PutAll(PutMeta, metas[..i])
    {
      assert InstructionFitsV1(ixs[i]);
      WriteMeta(ixs[i], e);
      PutAllStep(PutMeta, metas, i);
    }
    assert metas[..|ixs|] == metas;
  }

  method WritePayloads(ixs: seq<CompiledInstruction>, e: Encoder)
    modifies e
    ensures e.buf == old(e.buf) + PutPayloads(ixs)
  {
    for i := 0 to |ixs|
      invariant e.buf == old(e.buf) + PutAll(PutPayload, ixs[..i])
    {
      PutAllStep(PutPayload, ixs, i);
      e.WriteBytes(ixs[i].accounts);
      e.WriteBytes(ixs[i].data);
    }
    assert ixs[..|ixs|] == ixs;
  }

  method MarshalMessage(m: Message) returns (r: Result<seq<byte>>)
    ensures r == Marshal(m)
  {
    var refusal := Validate(m);
    if refusal.Some? {
      return Failure(refusal.value);
    }
    var e := new Encoder();
    var w := MarshalInto(m, e);
    if w.Failure? {
      return Failure(w.error);
    }
    assert [] + PutMessage(m) == PutMessage(m);
    return Success(e.buf);
  }

  // ---------------------------------------------------------------- decoding

  method ReadKeys(d: Decoder, n: nat) returns (r: Result<seq<PublicKey>>)
    requires d.Valid()
    modifies d`pos
    ensures d.Valid() && d.Yields(GetAll(GetKey, d.buf, old(d.pos), n, []), r)
  {
    var keys: seq<PublicKey> := [];
    for i := 0 to n
      invariant d.Valid()
      invariant GetAll(GetKey, d.buf, d.pos, n - i, keys) == GetAll(GetKey, d.buf, old(d.pos), n, [])
    {
      var kb :- d.ReadBytes(32);
      keys := keys + [kb];
    }
    return Success(keys);
  }

  method ReadKeyVec(d: Decoder) returns (r: Result<seq<PublicKey>>)
    requires d.Valid()
    modifies d`pos
    ensures d.Valid() && d.Yields(GetKeys(d.buf, old(d.pos)), r)
  {
    var n :- d.ReadShortvec();
    r := ReadKeys(d, n);
  }

  method ReadByteVec(d: Decoder) returns (r: Result<seq<byte>>)
    requires d.Valid()
    modifies d`pos
    ensures d.Valid() && d.Yields(GetByteVec(d.buf, old(d.pos)), r)
  {
    var n :- d.ReadShortvec();
    r := d.ReadBytes(n);
  }

  method ReadInstruction(d: Decoder) returns (r: Result<CompiledInstruction>)
    requires d.Valid()
    modifies d`pos
    ensures d.Valid() && d.Yields(GetInstruction(d.buf, old(d.pos)), r)
  {
    hide GetByteVec;
    var pid :- d.ReadUint8();
    var accounts :- ReadByteVec(d);
    var data :- ReadByteVec(d);
    return Success(CompiledInstruction(pid, accounts, data));
  }

  method ReadInstructions(d: Decoder) returns (r: Result<seq<CompiledInstruction>>)
    requires d.Valid()
    modifies d`pos
    ensures d.Valid() && d.Yields(GetInstructions(d.buf, old(d.pos)), r)
  {
    hide GetInstruction;
    var n: nat :- d.ReadShortvec();
    ghost var start := d.pos;
    var ixs: seq<CompiledInstruction> := [];
    for i := 0 to n
      invariant d.Valid()
      invariant GetAll(GetInstruction, d.buf, d.pos, n - i, ixs) == GetAll(GetInstruction, d.buf, start, n, [])
    {
      var ix :- ReadInstruction(d);
      ixs := ixs + [ix];
    }
    return Success(ixs);
  }

  method ReadLookup(d: Decoder) returns (r: Result<AddressTableLookup>)
    requires d.Valid()
    modifies d`pos
    ensures d.Valid() && d.Yields(GetLookup(d.buf, old(d.pos)), r)
  {
    hide GetByteVec;
    var key :- d.ReadBytes(32);
    var writable :- ReadByteVec(d);
    var readonly :- ReadByteVec(d);
    return Success(AddressTableLookup(key, writable, readonly));
  }

  method ReadLookups(d: Decoder) returns (r: Result<seq<AddressTableLookup>>)
    requires d.Valid()
    modifies d`pos
    ensures d.Valid() && d.Yields(GetLookups(VERSION_0, d.buf, old(d.pos)), r)
  {
    hide GetLookup;
    var n: nat :- d.ReadShortvec();
    ghost var start := d.pos;
    var lks: seq<AddressTableLookup> := [];
    for i := 0 to n
      invariant d.Valid()
      invariant GetAll(GetLookup, d.buf, d.pos, n - i, lks) == GetAll(GetLookup, d.buf, start, n, [])
    {
      var lk :- ReadLookup(d);
      lks := lks + [lk];
    }
    return Success(lks);
  }

  method ReadHeader(d: Decoder) returns (r: Result<MessageHeader>)
    requires d.Valid()
    modifies d`pos
    ensures d.Valid() && d.Yields(GetHeader(d.buf, old(d.pos)), r)
  {
    var h1 :- d.ReadUint8();
    var h2 :- d.ReadUint8();
    var h3 :- d.ReadUint8();
    return Success(MessageHeader(h1, h2, h3));
  }

  method DecodeMessage(d: Decoder) returns (r: Result<Message>)
    requires d.Valid()
    modifies d`pos
    ensures d.Valid() && d.Yields(GetMessage(d.buf, old(d.pos)), r)
  {
    hide GetHeader, GetKeys, GetInstructions, GetLookups, GetBodyV1;
    var first :- d.PeekUint8();
    if first == 0x81 {
      r := DecodeMessageV1(d);
      return;
    }
    var version := VERSION_LEGACY;
    if first >= 128 {
      var b := d.ReadUint8();
      var v := b.value - 128;
      if v > 1 {
        return Failure(UnsupportedVersion);
      }
      version := v;
    }
    r := DecodeBody(d, version);
  }

  method DecodeBody(d: Decoder, version: byte) returns (r: Result<Message>)
    requires d.Valid()
    modifies d`pos
    ensures d.Valid() && d.Yields(GetBody(version, d.buf, old(d.pos)), r)
  {
    hide GetHeader, GetKeys, GetInstructions;
    var header :- ReadHeader(d);
    var keys :- ReadKeyVec(d);
    var blockhash :- d.ReadBytes(32);
    var ixs :- ReadInstructions(d);
    var lookups: seq<AddressTableLookup> := [];
    if version == VERSION_0 {
      lookups :- ReadLookups(d);
    }
    return Success(Message(version, header, keys, blockhash, ixs, lookups, None));
  }

  method ReadOptU32(d: Decoder, present: bool) returns (r: Result<Option<u32>>)
    requires d.Valid()
    modifies d`pos
    ensures d.Valid() && d.Yields(GetOptU32(present, d.buf, old(d.pos)), r)
  {
    if present {
      var v :- d.ReadUint32();
      return Success(Some(v));
    }
    return Success(None);
  }

  method ReadConfig(d: Decoder, mask: u32) returns (r: Result<TransactionConfig>)
    requires d.Valid()
    modifies d`pos
    ensures d.Valid() && d.Yields(GetConfig(mask, d.buf, old(d.pos)), r)
  {
    hide GetOptU32;
    var fee: Option<u64> := None;
    if FeeBits(mask) {
      var v :- d.ReadUint64();
      fee := Some(v);
    }
    var units :- ReadOptU32(d, Bit(mask, 4));
    var dataSize :- ReadOptU32(d, Bit(mask, 8));
    var heap :- ReadOptU32(d, Bit(mask, 16));
    return Success(TransactionConfig(fee, units, dataSize, heap));
  }

  method ReadMeta(d: Decoder) returns (r: Result<InstructionMeta>)
    requires d.Valid()
    modifies d`pos
    ensures d.Valid() && d.Yields(GetMeta(d.buf, old(d.pos)), r)
  {
    hide GetLE, LEValue, Pow256;
    var pid :- d.ReadUint8();
    var accounts :- d.ReadUint8();
    var data :- d.ReadUint16();
    return Success(InstructionMeta(pid, accounts, data));
  }

  method ReadMetas(d: Decoder, n: nat) returns (r: Result<seq<InstructionMeta>>)
    requires d.Valid()
    modifies d`pos
    ensures d.Valid() && d.Yields(GetMetas(n, d.buf, old(d.pos)), r)
  {
    hide GetMeta;
    var metas: seq<InstructionMeta> := [];
    for i := 0 to n
      invariant d.Valid()
      invariant GetAll(GetMeta, d.buf, d.pos, n - i, metas) == GetAll(GetMeta, d.buf, old(d.pos), n, [])
    {
      var meta :- ReadMeta(d);
      metas := metas + [meta];
    }
    return Success(metas);
  }

  method ReadPayloads(d: Decoder, metas: seq<InstructionMeta>) returns (r: Result<seq<CompiledInstruction>>)
    requires d.Valid()
    modifies d`pos
    ensures d.Valid() && d.Yields(GetPayloads(metas, d.buf, old(d.pos), []), r)
  {
    var ixs: seq<CompiledInstruction> := [];
    for i := 0 to |metas|
      invariant d.Valid()
      invariant GetPayloads(metas[i..], d.buf, d.pos, ixs) == GetPayloads(metas, d.buf, old(d.pos), [])
    {
      assert metas[i..][0] == metas[i] && metas[i..][1..] == metas[i + 1..];
      var accounts :- d.ReadBytes(metas[i].accountCount);
      var data :- d.ReadBytes(metas[i].dataCount);
      ixs := ixs + [CompiledInstruction(metas[i].programIdIndex, accounts, data)];
    }
    return Success(ixs);
  }

  method ReadHead(d: Decoder) returns (r: Result<Head>)
    requires d.Valid()
    modifies d`pos
    ensures d.Valid() && d.Yields(GetHead(d.buf, old(d.pos)), r)
  {
    hide GetHeader;
    var header :- ReadHeader(d);
    var mask :- d.ReadUint32();
    if mask >= 32 || mask % 4 == 1 || mask % 4 == 2 {
      return Failure(InvalidConfigMask);
    }
    var blockhash :- d.ReadBytes(32);
    var ixCount :- d.ReadUint8();
    var keyCount :- d.ReadUint8();
    return Success(Head(header, mask, blockhash, ixCount, keyCount));
  }

  method DecodeMessageV1(d: Decoder) returns (r: Result<Message>)
    requires d.Valid()
    modifies d`pos
    ensures d.Valid()
    ensures d.Yields(if old(d.pos) < |d.buf| then GetBodyV1(d.buf, old(d.pos) + 1) else Err(ShortBuffer), r)
  {
    hide GetHead, GetConfig, GetMetas, GetPayloads;
    var _ :- d.ReadUint8();
    var head :- ReadHead(d);
    var keys :- ReadKeys(d, head.keyCount);
    var config :- ReadConfig(d, head.mask);
    var metas :- ReadMetas(d, head.ixCount);
    var ixs :- ReadPayloads(d, metas);
    return Success(Message(VERSION_1, head.header, keys, head.blockhash, ixs, [], Some(config)));
  }

  /** Decodes a whole buffer: trailing bytes are refused. */
  method UnmarshalMessage(data: seq<byte>) returns (r: Result<Message>)
    ensures r == Unmarshal(data)
  {
    if |data| == 0 {
      return Failure(EmptyInput);
    }
    var d := new Decoder(data);
    var m :- DecodeMessage(d);
    if d.Remaining() != 0 {
      return Failure(TrailingBytes);
    }
    return Success(m);
  }
}

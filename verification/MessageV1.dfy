/**
 The v1 message layout (message_v1.go): a masked set of optional resource limits, and instruction
 counts that precede all instruction payloads.
 */
module MessageV1 {
  import opened Wire
  import opened Message

  // ---------------------------------------------------------------- the configuration mask

  /** Bits 0 and 1 together announce a priority fee; bits 2, 3 and 4 announce one limit each. */
  function MaskOf(fee: bool, units: bool, dataSize: bool, heap: bool): (m: u32)
    ensures m < 32
  {
    (if fee then 3 else 0) + (if units then 4 else 0) + (if dataSize then 8 else 0) + (if heap then 16 else 0)
  }

  function ConfigMask(c: TransactionConfig): (r: u32) {
    MaskOf(c.priorityFee.Some?, c.computeUnitLimit.Some?, c.loadedAccountsDataSizeLimit.Some?, c.heapSize.Some?)
  }

  /** No unknown bit, and the two priority-fee bits agree. */
  predicate MaskValid(mask: u32) {
    mask < 32 && mask % 4 != 1 && mask % 4 != 2
  }

  predicate FeeBits(mask: u32) {
    mask % 4 != 0
  }

  predicate Bit(mask: u32, weight: nat)
    requires weight > 0
  {
    mask / weight % 2 == 1
  }

  /** A mask is accepted exactly when it is the mask of some set of present fields, and it determines that set. */
  lemma MaskExact(mask: u32, fee: bool, units: bool, dataSize: bool, heap: bool)
    ensures mask == MaskOf(fee, units, dataSize, heap) <==>
            && MaskValid(mask)
            && FeeBits(mask) == fee && Bit(mask, 4) == units && Bit(mask, 8) == dataSize && Bit(mask, 16) == heap
  {
  }

  // ---------------------------------------------------------------- optional limits

  function PutOptU32(o: Option<u32>): (r: seq<byte>) {
    if o.Some? then LE(o.value, 4) else []
  }

  function GetOptU32(present: bool, buf: seq<byte>, pos: nat): (r: Parsed<Option<u32>>) {
    if present then
      var (v, p) :- GetU32(buf, pos);
      Ok(Some(v), p)
    else Ok(None, pos)
  }

  function PutOptU64(o: Option<u64>): (r: seq<byte>) {
    if o.Some? then LE(o.value, 8) else []
  }

  function GetOptU64(present: bool, buf: seq<byte>, pos: nat): (r: Parsed<Option<u64>>) {
    if present then
      var (v, p) :- GetU64(buf, pos);
      Ok(Some(v), p)
    else Ok(None, pos)
  }

  lemma GetOptU32Exact(present: bool, buf: seq<byte>, pos: nat, o: Option<u32>)
    requires pos <= |buf|
    ensures Exactly(GetOptU32(present, buf, pos), o, buf, pos, PutOptU32(o), o.Some? == present)
  {
    if o.Some? {
      GetU32Exact(buf, pos, o.value);
    }
  }

  lemma GetOptU64Exact(present: bool, buf: seq<byte>, pos: nat, o: Option<u64>)
    requires pos <= |buf|
    ensures Exactly(GetOptU64(present, buf, pos), o, buf, pos, PutOptU64(o), o.Some? == present)
  {
    if o.Some? {
      GetU64Exact(buf, pos, o.value);
    }
  }

  function PutConfig(c: TransactionConfig): (r: seq<byte>) {
    PutOptU64(c.priorityFee)
    + (PutOptU32(c.computeUnitLimit)
       + (PutOptU32(c.loadedAccountsDataSizeLimit) + PutOptU32(c.heapSize)))
  }

  function GetConfig(mask: u32, buf: seq<byte>, pos: nat): (r: Parsed<TransactionConfig>) {
    var (fee, p1) :- GetOptU64(FeeBits(mask), buf, pos);
    var (units, p2) :- GetOptU32(Bit(mask, 4), buf, p1);
    var (dataSize, p3) :- GetOptU32(Bit(mask, 8), buf, p2);
    var (heap, p4) :- GetOptU32(Bit(mask, 16), buf, p3);
    Ok(TransactionConfig(fee, units, dataSize, heap), p4)
  }

  lemma ConfigStages(mask: u32, buf: seq<byte>, pos: nat, c: TransactionConfig, p: nat)
    requires GetConfig(mask, buf, pos) == Ok(c, p)
    ensures var s1 := GetOptU64(FeeBits(mask), buf, pos);
            s1.Ok? &&
            var s2 := GetOptU32(Bit(mask, 4), buf, s1.pos);
            s2.Ok? &&
            var s3 := GetOptU32(Bit(mask, 8), buf, s2.pos);
            s3.Ok? &&
            var s4 := GetOptU32(Bit(mask, 16), buf, s3.pos);
            s4.Ok? && p == s4.pos && c == TransactionConfig(s1.value, s2.value, s3.value, s4.value)
  {
    hide GetOptU32, GetOptU64, Bit, FeeBits;
  }

  lemma GetConfigSound(mask: u32, buf: seq<byte>, pos: nat, c: TransactionConfig, p: nat)
    requires MaskValid(mask) && pos <= |buf|
    requires GetConfig(mask, buf, pos) == Ok(c, p)
    ensures ConfigMask(c) == mask && At(buf, pos, PutConfig(c)) && p == pos + |PutConfig(c)|
  {
    ConfigStages(mask, buf, pos, c, p);
    hide GetConfig, At, GetOptU32, GetOptU64, PutOptU32, PutOptU64, Bit, FeeBits, MaskOf, MaskValid;
    var a, u, d, h := PutOptU64(c.priorityFee), PutOptU32(c.computeUnitLimit),
                      PutOptU32(c.loadedAccountsDataSizeLimit), PutOptU32(c.heapSize);
    var p1 := GetOptU64(FeeBits(mask), buf, pos).pos;
    var p2 := GetOptU32(Bit(mask, 4), buf, p1).pos;
    var p3 := GetOptU32(Bit(mask, 8), buf, p2).pos;
    GetOptU64Exact(FeeBits(mask), buf, pos, c.priorityFee);
    AtBound(buf, pos, a);
    GetOptU32Exact(Bit(mask, 4), buf, p1, c.computeUnitLimit);
    AtBound(buf, p1, u);
    GetOptU32Exact(Bit(mask, 8), buf, p2, c.loadedAccountsDataSizeLimit);
    AtBound(buf, p2, d);
    GetOptU32Exact(Bit(mask, 16), buf, p3, c.heapSize);
    AtCat(buf, p2, d, h);
    AtCat(buf, p1, u, d + h);
    AtCat(buf, pos, a, u + (d + h));
    MaskExact(mask, c.priorityFee.Some?, c.computeUnitLimit.Some?, c.loadedAccountsDataSizeLimit.Some?,
              c.heapSize.Some?);
  }

  lemma GetConfigComplete(buf: seq<byte>, pos: nat, c: TransactionConfig)
    requires At(buf, pos, PutConfig(c))
    ensures GetConfig(ConfigMask(c), buf, pos) == Ok(c, pos + |PutConfig(c)|)
  {
    var mask := ConfigMask(c);
    var a, u, d, h := PutOptU64(c.priorityFee), PutOptU32(c.computeUnitLimit),
                      PutOptU32(c.loadedAccountsDataSizeLimit), PutOptU32(c.heapSize);
    var p1 := pos + |a|;
    var p2 := p1 + |u|;
    var p3 := p2 + |d|;
    MaskExact(mask, c.priorityFee.Some?, c.computeUnitLimit.Some?, c.loadedAccountsDataSizeLimit.Some?,
              c.heapSize.Some?);
    AtBound(buf, pos, PutConfig(c));
    hide At, GetOptU32, GetOptU64, PutOptU32, PutOptU64, Bit, FeeBits, MaskOf, MaskValid;
    AtCat(buf, pos, a, u + (d + h));
    AtCat(buf, p1, u, d + h);
    AtCat(buf, p2, d, h);
    GetOptU64Exact(FeeBits(mask), buf, pos, c.priorityFee);
    GetOptU32Exact(Bit(mask, 4), buf, p1, c.computeUnitLimit);
    GetOptU32Exact(Bit(mask, 8), buf, p2, c.loadedAccountsDataSizeLimit);
    GetOptU32Exact(Bit(mask, 16), buf, p3, c.heapSize);
  }

  // ---------------------------------------------------------------- instruction counts and payloads

  /** The fixed part of a v1 instruction; the counts are truncated to their wire widths. */
  datatype InstructionMeta = InstructionMeta(programIdIndex: byte, accountCount: byte, dataCount: u16)

  function MetaOf(ix: CompiledInstruction): (r: InstructionMeta) {
    InstructionMeta(ix.programIdIndex, |ix.accounts| % 256, |ix.data| % 0x1_0000)
  }

  function MetasOf(ixs: seq<CompiledInstruction>): (ms: seq<InstructionMeta>)
    ensures |ms| == |ixs|
  {
    seq(|ixs|, i requires 0 <= i < |ixs| => MetaOf(ixs[i]))
  }

  predicate InstructionFitsV1(ix: CompiledInstruction) {
    |ix.accounts| <= 255 && |ix.data| <= 0xFFFF
  }

  function PutMeta(m: InstructionMeta): (r: seq<byte>) {
    [m.programIdIndex, m.accountCount] + LE(m.dataCount, 2)
  }

  function GetMeta(buf: seq<byte>, pos: nat): (r: Parsed<InstructionMeta>) {
    var (pid, p1) :- GetU8(buf, pos);
    var (accounts, p2) :- GetU8(buf, p1);
    var (data, p3) :- GetU16(buf, p2);
    Ok(InstructionMeta(pid, accounts, data), p3)
  }

  lemma GetMetaExact(buf: seq<byte>, pos: nat, m: InstructionMeta)
    ensures Exactly(GetMeta(buf, pos), m, buf, pos, PutMeta(m), true)
  {
    AtCat(buf, pos, [m.programIdIndex], [m.accountCount]);
    assert [m.programIdIndex, m.accountCount] == [m.programIdIndex] + [m.accountCount];
    AtCat(buf, pos, [m.programIdIndex, m.accountCount], LE(m.dataCount, 2));
    hide At;
    GetU8Exact(buf, pos, m.programIdIndex);
    GetU8Exact(buf, pos + 1, m.accountCount);
    GetU16Exact(buf, pos + 2, m.dataCount);
  }

  lemma MetasLawful()
    ensures Lawful(GetMeta, PutMeta, Anything<InstructionMeta>)
  {
    forall buf: seq<byte>, pos: nat, m
      ensures Exactly(GetMeta(buf, pos), m, buf, pos, PutMeta(m), true)
    {
      GetMetaExact(buf, pos, m);
    }
  }

  function PutPayload(ix: CompiledInstruction): (r: seq<byte>) {
    ix.accounts + ix.data
  }

  /** The payload that meta announces. */
  function GetPayload(meta: InstructionMeta, buf: seq<byte>, pos: nat): (r: Parsed<CompiledInstruction>) {
    var (accounts, p1) :- GetBytes(buf, pos, meta.accountCount);
    var (data, p2) :- GetBytes(buf, p1, meta.dataCount);
    Ok(CompiledInstruction(meta.programIdIndex, accounts, data), p2)
  }

  lemma GetPayloadExact(meta: InstructionMeta, buf: seq<byte>, pos: nat, ix: CompiledInstruction)
    ensures Exactly(GetPayload(meta, buf, pos), ix, buf, pos, PutPayload(ix),
                    InstructionFitsV1(ix) && MetaOf(ix) == meta)
  {
    AtCat(buf, pos, ix.accounts, ix.data);
    GetFixedExact(buf, pos, meta.accountCount, ix.accounts);
    GetFixedExact(buf, pos + |ix.accounts|, meta.dataCount, ix.data);
    hide At, GetBytes;
  }

  /** The payloads announced by metas, in order, appended to acc. */
  function GetPayloads(metas: seq<InstructionMeta>, buf: seq<byte>, pos: nat, acc: seq<CompiledInstruction>):
    (r: Parsed<seq<CompiledInstruction>>)
  {
    if |metas| == 0 then Ok(acc, pos)
    else
      var (ix, p) :- GetPayload(metas[0], buf, pos);
      GetPayloads(metas[1..], buf, p, acc + [ix])
  }

  lemma {:induction false} GetPayloadsSound(metas: seq<InstructionMeta>, buf: seq<byte>, pos: nat,
                                            acc: seq<CompiledInstruction>)
    returns (ixs: seq<CompiledInstruction>)
    requires GetPayloads(metas, buf, pos, acc).Ok? && pos <= |buf|
    ensures GetPayloads(metas, buf, pos, acc) == Ok(acc + ixs, pos + |PutAll(PutPayload, ixs)|)
    ensures MetasOf(ixs) == metas && AllOk(InstructionFitsV1, ixs)
    ensures At(buf, pos, PutAll(PutPayload, ixs))
    decreases |metas|
  {
    if |metas| == 0 {
      ixs := [];
      assert acc + ixs == acc;
    } else {
      var ix, p := GetPayload(metas[0], buf, pos).value, GetPayload(metas[0], buf, pos).pos;
      GetPayloadExact(metas[0], buf, pos, ix);
      var rest := GetPayloadsSound(metas[1..], buf, p, acc + [ix]);
      ixs := [ix] + rest;
      assert acc + [ix] + rest == acc + ixs;
      assert metas == [metas[0]] + metas[1..];
      PutAllCons(PutPayload, ix, rest);
      hide GetPayload, PutPayload;
      AtCat(buf, pos, PutPayload(ix), PutAll(PutPayload, rest));
    }
  }

  lemma {:induction false} GetPayloadsComplete(ixs: seq<CompiledInstruction>, buf: seq<byte>, pos: nat,
                                               acc: seq<CompiledInstruction>)
    requires AllOk(InstructionFitsV1, ixs) && At(buf, pos, PutAll(PutPayload, ixs))
    ensures GetPayloads(MetasOf(ixs), buf, pos, acc) == Ok(acc + ixs, pos + |PutAll(PutPayload, ixs)|)
    decreases |ixs|
  {
    hide At, GetPayload, PutPayload;
    if |ixs| == 0 {
      assert acc + ixs == acc;
    } else {
      var ix := ixs[0];
      AtCat(buf, pos, PutPayload(ix), PutAll(PutPayload, ixs[1..]));
      GetPayloadExact(MetaOf(ix), buf, pos, ix);
      GetPayloadsComplete(ixs[1..], buf, pos + |PutPayload(ix)|, acc + [ix]);
      assert MetasOf(ixs)[1..] == MetasOf(ixs[1..]);
      assert acc + [ix] + ixs[1..] == acc + ixs;
    }
  }

  // ---------------------------------------------------------------- whole messages

  datatype Head = Head(header: MessageHeader, mask: u32, blockhash: Hash, ixCount: byte, keyCount: byte)

  function PutHead(h: Head): (r: seq<byte>) {
    PutHeader(h.header) + (LE(h.mask, 4) + (h.blockhash + [h.ixCount, h.keyCount]))
  }

  function GetHead(buf: seq<byte>, pos: nat): (r: Parsed<Head>) {
    var (header, p1) :- GetHeader(buf, pos);
    var (mask, p2) :- GetU32(buf, p1);
    if !MaskValid(mask) then Err(InvalidConfigMask)
    else
      var (blockhash, p3) :- GetBytes(buf, p2, 32);
      var (ixCount, p4) :- GetU8(buf, p3);
      var (keyCount, p5) :- GetU8(buf, p4);
      Ok(Head(header, mask, blockhash, ixCount, keyCount), p5)
  }

  lemma GetHeadExact(buf: seq<byte>, pos: nat, h: Head)
    ensures Exactly(GetHead(buf, pos), h, buf, pos, PutHead(h), MaskValid(h.mask))
  {
    var hd, mk, bh, i, k := PutHeader(h.header), LE(h.mask, 4), h.blockhash, [h.ixCount], [h.keyCount];
    assert [h.ixCount, h.keyCount] == i + k;
    assert PutHead(h) == hd + (mk + (bh + (i + k)));
    assert |hd| == 3 && |mk| == 4;
    hide At, GetHeader, GetU32, GetBytes, GetU8, PutHeader, PutHead, MaskValid, LE;
    AtCat(buf, pos, hd, mk + (bh + (i + k)));
    AtCat(buf, pos + 3, mk, bh + (i + k));
    AtCat(buf, pos + 7, bh, i + k);
    AtCat(buf, pos + 39, i, k);
    GetHeaderExact(buf, pos, h.header);
    GetU32Exact(buf, pos + 3, h.mask);
    GetFixedExact(buf, pos + 7, 32, h.blockhash);
    GetU8Exact(buf, pos + 39, h.ixCount);
    GetU8Exact(buf, pos + 40, h.keyCount);
  }

  /** The configuration that is written: a nil pointer writes like an empty struct. */
  function ConfigOf(m: Message): (r: TransactionConfig) {
    if m.config.Some? then m.config.value else EMPTY_CONFIG
  }

  function HeadOf(m: Message): (r: Head) {
    Head(m.header, ConfigMask(ConfigOf(m)), m.recentBlockhash, |m.instructions| % 256, |m.accountKeys| % 256)
  }

  function PutAllKeys(ks: seq<PublicKey>): (r: seq<byte>) {
    PutAll(PutKey, ks)
  }

  function GetAllKeys(n: nat, buf: seq<byte>, pos: nat): (r: Parsed<seq<PublicKey>>) {
    GetAll(GetKey, buf, pos, n, [])
  }

  function PutMetas(ms: seq<InstructionMeta>): (r: seq<byte>) {
    PutAll(PutMeta, ms)
  }

  function GetMetas(n: nat, buf: seq<byte>, pos: nat): (r: Parsed<seq<InstructionMeta>>) {
    GetAll(GetMeta, buf, pos, n, [])
  }

  function PutPayloads(ixs: seq<CompiledInstruction>): (r: seq<byte>) {
    PutAll(PutPayload, ixs)
  }

  /** What follows the version byte of a v1 message. */
  function PutBodyV1(m: Message): (r: seq<byte>) {
    PutHead(HeadOf(m))
    + (PutAllKeys(m.accountKeys)
       + (PutConfig(ConfigOf(m))
          + (PutMetas(MetasOf(m.instructions)) + PutPayloads(m.instructions))))
  }

  function GetBodyV1(buf: seq<byte>, pos: nat): (r: Parsed<Message>) {
    var (head, p1) :- GetHead(buf, pos);
    var (keys, p2) :- GetAllKeys(head.keyCount, buf, p1);
    var (config, p3) :- GetConfig(head.mask, buf, p2);
    var (metas, p4) :- GetMetas(head.ixCount, buf, p3);
    var (ixs, p5) :- GetPayloads(metas, buf, p4, []);
    Ok(Message(VERSION_1, head.header, keys, head.blockhash, ixs, [], Some(config)), p5)
  }

  ghost predicate InstructionsFitV1(ixs: seq<CompiledInstruction>) {
    AllOk(InstructionFitsV1, ixs)
  }

  /** Every count of a v1 message fits its fixed-width field. */
  ghost predicate FitsV1(m: Message) {
    |m.accountKeys| <= 255 && |m.instructions| <= 255 && InstructionsFitV1(m.instructions)
  }

  ghost predicate CanonicalV1(m: Message) {
    m.version == VERSION_1 && m.lookups == [] && m.config.Some? && FitsV1(m)
  }

  lemma GetAllKeysExact(n: nat, buf: seq<byte>, pos: nat, ks: seq<PublicKey>)
    requires pos <= |buf|
    ensures Exactly(GetAllKeys(n, buf, pos), ks, buf, pos, PutAllKeys(ks), |ks| == n)
  {
    KeysLawful();
    GetAllExact(GetKey, PutKey, Anything<PublicKey>, buf, pos, n, ks);
  }

  lemma GetMetasExact(n: nat, buf: seq<byte>, pos: nat, ms: seq<InstructionMeta>)
    requires pos <= |buf|
    ensures Exactly(GetMetas(n, buf, pos), ms, buf, pos, PutMetas(ms), |ms| == n)
  {
    MetasLawful();
    GetAllExact(GetMeta, PutMeta, Anything<InstructionMeta>, buf, pos, n, ms);
  }

  lemma PayloadsSound(metas: seq<InstructionMeta>, buf: seq<byte>, pos: nat, ixs: seq<CompiledInstruction>, p: nat)
    requires GetPayloads(metas, buf, pos, []) == Ok(ixs, p) && pos <= |buf|
    ensures |metas| == |ixs| && MetasOf(ixs) == metas && InstructionsFitV1(ixs)
    ensures At(buf, pos, PutPayloads(ixs)) && p == pos + |PutPayloads(ixs)|
  {
    var ys := GetPayloadsSound(metas, buf, pos, []);
    assert [] + ys == ys;
  }

  lemma PayloadsComplete(ixs: seq<CompiledInstruction>, buf: seq<byte>, pos: nat)
    requires InstructionsFitV1(ixs) && At(buf, pos, PutPayloads(ixs))
    ensures GetPayloads(MetasOf(ixs), buf, pos, []) == Ok(ixs, pos + |PutPayloads(ixs)|)
  {
    GetPayloadsComplete(ixs, buf, pos, []);
    assert [] + ixs == ixs;
  }

  lemma HeadOfExact(m: Message, h: Head)
    requires |m.accountKeys| <= 255 && |m.instructions| <= 255
    ensures HeadOf(m) == h <==>
            && h.header == m.header && h.mask == ConfigMask(ConfigOf(m)) && h.blockhash == m.recentBlockhash
            && h.ixCount == |m.instructions| && h.keyCount == |m.accountKeys|
  {
  }

  lemma BodyV1Stages(buf: seq<byte>, pos: nat, m: Message, p: nat)
    requires GetBodyV1(buf, pos) == Ok(m, p)
    ensures var s1 := GetHead(buf, pos);
            s1.Ok? &&
            var s2 := GetAllKeys(s1.value.keyCount, buf, s1.pos);
            s2.Ok? &&
            var s3 := GetConfig(s1.value.mask, buf, s2.pos);
            s3.Ok? &&
            var s4 := GetMetas(s1.value.ixCount, buf, s3.pos);
            s4.Ok? &&
            var s5 := GetPayloads(s4.value, buf, s4.pos, []);
            s5.Ok? && p == s5.pos &&
            m == Message(VERSION_1, s1.value.header, s2.value, s1.value.blockhash, s5.value, [], Some(s3.value))
  {
    hide GetHead, GetAllKeys, GetConfig, GetMetas, GetPayloads;
  }

  lemma BodyV1Build(buf: seq<byte>, pos: nat, head: Head, p1: nat, keys: seq<PublicKey>, p2: nat,
                    config: TransactionConfig, p3: nat, metas: seq<InstructionMeta>, p4: nat,
                    ixs: seq<CompiledInstruction>, p5: nat)
    requires GetHead(buf, pos) == Ok(head, p1)
    requires GetAllKeys(head.keyCount, buf, p1) == Ok(keys, p2)
    requires GetConfig(head.mask, buf, p2) == Ok(config, p3)
    requires GetMetas(head.ixCount, buf, p3) == Ok(metas, p4)
    requires GetPayloads(metas, buf, p4, []) == Ok(ixs, p5)
    ensures GetBodyV1(buf, pos) == Ok(Message(VERSION_1, head.header, keys, head.blockhash, ixs, [], Some(config)), p5)
  {
    hide GetHead, GetAllKeys, GetConfig, GetMetas, GetPayloads;
  }

  lemma BodyV1Join(buf: seq<byte>, pos: nat, p1: nat, p2: nat, p3: nat, p4: nat, p5: nat, m: Message)
    requires p1 == pos + |PutHead(HeadOf(m))| && At(buf, pos, PutHead(HeadOf(m)))
    requires p2 == p1 + |PutAllKeys(m.accountKeys)| && At(buf, p1, PutAllKeys(m.accountKeys))
    requires p3 == p2 + |PutConfig(ConfigOf(m))| && At(buf, p2, PutConfig(ConfigOf(m)))
    requires p4 == p3 + |PutMetas(MetasOf(m.instructions))| && At(buf, p3, PutMetas(MetasOf(m.instructions)))
    requires p5 == p4 + |PutPayloads(m.instructions)| && At(buf, p4, PutPayloads(m.instructions))
    ensures At(buf, pos, PutBodyV1(m)) && p5 == pos + |PutBodyV1(m)|
  {
    hide At, PutHead, PutAllKeys, PutConfig, PutMetas, PutPayloads, MetasOf, HeadOf, ConfigOf;
    var h, ks, c, ms, ps := PutHead(HeadOf(m)), PutAllKeys(m.accountKeys), PutConfig(ConfigOf(m)),
                            PutMetas(MetasOf(m.instructions)), PutPayloads(m.instructions);
    AtCat(buf, p3, ms, ps);
    AtCat(buf, p2, c, ms + ps);
    AtCat(buf, p1, ks, c + (ms + ps));
    AtCat(buf, pos, h, ks + (c + (ms + ps)));
  }

  lemma GetBodyV1Sound(buf: seq<byte>, pos: nat, m: Message, p: nat)
    requires GetBodyV1(buf, pos) == Ok(m, p)
    ensures CanonicalV1(m) && At(buf, pos, PutBodyV1(m)) && p == pos + |PutBodyV1(m)|
  {
    BodyV1Stages(buf, pos, m, p);
    var s1 := GetHead(buf, pos);
    var s2 := GetAllKeys(s1.value.keyCount, buf, s1.pos);
    var s3 := GetConfig(s1.value.mask, buf, s2.pos);
    var s4 := GetMetas(s1.value.ixCount, buf, s3.pos);
    hide GetBodyV1, PutBodyV1, At, GetHead, PutHead, GetAllKeys, PutAllKeys, GetConfig, PutConfig, GetMetas, PutMetas,
      GetPayloads, PutPayloads, MetasOf, ConfigMask, MaskValid, InstructionsFitV1, HeadOf;
    GetHeadExact(buf, pos, s1.value);
    AtBound(buf, pos, PutHead(s1.value));
    GetAllKeysExact(s1.value.keyCount, buf, s1.pos, m.accountKeys);
    AtBound(buf, s1.pos, PutAllKeys(m.accountKeys));
    GetConfigSound(s1.value.mask, buf, s2.pos, s3.value, s3.pos);
    AtBound(buf, s2.pos, PutConfig(s3.value));
    GetMetasExact(s1.value.ixCount, buf, s3.pos, s4.value);
    AtBound(buf, s3.pos, PutMetas(s4.value));
    PayloadsSound(s4.value, buf, s4.pos, m.instructions, p);
    HeadOfExact(m, s1.value);
    BodyV1Join(buf, pos, s1.pos, s2.pos, s3.pos, s4.pos, p, m);
  }

  lemma BodyV1Split(buf: seq<byte>, pos: nat, m: Message)
    returns (p1: nat, p2: nat, p3: nat, p4: nat)
    requires At(buf, pos, PutBodyV1(m))
    ensures p1 == pos + |PutHead(HeadOf(m))| <= |buf| && At(buf, pos, PutHead(HeadOf(m)))
    ensures p2 == p1 + |PutAllKeys(m.accountKeys)| <= |buf| && At(buf, p1, PutAllKeys(m.accountKeys))
    ensures p3 == p2 + |PutConfig(ConfigOf(m))| <= |buf| && At(buf, p2, PutConfig(ConfigOf(m)))
    ensures p4 == p3 + |PutMetas(MetasOf(m.instructions))| <= |buf| && At(buf, p3, PutMetas(MetasOf(m.instructions)))
    ensures At(buf, p4, PutPayloads(m.instructions))
    ensures pos + |PutBodyV1(m)| == p4 + |PutPayloads(m.instructions)|
  {
    AtBound(buf, pos, PutBodyV1(m));
    hide At, PutHead, PutAllKeys, PutConfig, PutMetas, PutPayloads, MetasOf, HeadOf, ConfigOf;
    var h, ks, c, ms, ps := PutHead(HeadOf(m)), PutAllKeys(m.accountKeys), PutConfig(ConfigOf(m)),
                            PutMetas(MetasOf(m.instructions)), PutPayloads(m.instructions);
    p1 := pos + |h|;
    p2 := p1 + |ks|;
    p3 := p2 + |c|;
    p4 := p3 + |ms|;
    AtCat(buf, pos, h, ks + (c + (ms + ps)));
    AtCat(buf, p1, ks, c + (ms + ps));
    AtCat(buf, p2, c, ms + ps);
    AtCat(buf, p3, ms, ps);
  }

  lemma ConfigFacts(m: Message)
    requires CanonicalV1(m)
    ensures m.config.Some? && ConfigOf(m) == m.config.value && MaskValid(ConfigMask(ConfigOf(m)))
  {
    var c := m.config.value;
    MaskExact(ConfigMask(c), c.priorityFee.Some?, c.computeUnitLimit.Some?, c.loadedAccountsDataSizeLimit.Some?,
              c.heapSize.Some?);
  }

  lemma GetBodyV1Complete(buf: seq<byte>, pos: nat, m: Message)
    requires CanonicalV1(m) && At(buf, pos, PutBodyV1(m))
    ensures GetBodyV1(buf, pos) == Ok(m, pos + |PutBodyV1(m)|)
  {
    hide PutBodyV1, At, GetHead, PutHead, GetAllKeys, PutAllKeys, GetConfig, PutConfig, GetMetas, PutMetas,
      GetPayloads, PutPayloads, MetasOf, ConfigMask, MaskValid, InstructionsFitV1, HeadOf, ConfigOf, GetBodyV1;
    var h := HeadOf(m);
    ConfigFacts(m);
    HeadOfExact(m, h);
    var p1, p2, p3, p4 := BodyV1Split(buf, pos, m);
    GetHeadExact(buf, pos, h);
    assert GetHead(buf, pos) == Ok(h, p1);
    GetAllKeysExact(h.keyCount, buf, p1, m.accountKeys);
    assert GetAllKeys(h.keyCount, buf, p1) == Ok(m.accountKeys, p2);
    var metas := MetasOf(m.instructions);
    GetConfigComplete(buf, p2, m.config.value);
    GetMetasExact(h.ixCount, buf, p3, metas);
    PayloadsComplete(m.instructions, buf, p4);
    BodyV1Build(buf, pos, h, p1, m.accountKeys, p2, m.config.value, p3, metas, p4, m.instructions,
                p4 + |PutPayloads(m.instructions)|);
  }
}

/**
 Messages and their three wire layouts (message.go, message_v1.go): what each layout writes, what
 decoding accepts, and the proof that the two are inverse.
 */
module Message {
  import opened Wire

  type PublicKey = b: seq<byte> | |b| == 32 witness seq(32, i => 0)
  type Hash = b: seq<byte> | |b| == 32 witness seq(32, i => 0)

  const VERSION_LEGACY: byte := 0xFF
  const VERSION_0: byte := 0
  const VERSION_1: byte := 1

  datatype MessageHeader = MessageHeader(
    numRequiredSignatures: byte,
    numReadonlySignedAccounts: byte,
    numReadonlyUnsignedAccounts: byte)

  datatype CompiledInstruction = CompiledInstruction(programIdIndex: byte, accounts: seq<byte>, data: seq<byte>)

  datatype AddressTableLookup = AddressTableLookup(
    accountKey: PublicKey,
    writableIndexes: seq<byte>,
    readonlyIndexes: seq<byte>)

  datatype TransactionConfig = TransactionConfig(
    priorityFee: Option<u64>,
    computeUnitLimit: Option<u32>,
    loadedAccountsDataSizeLimit: Option<u32>,
    heapSize: Option<u32>)

  const EMPTY_CONFIG := TransactionConfig(None, None, None, None)

  datatype Message = Message(
    version: byte,
    header: MessageHeader,
    accountKeys: seq<PublicKey>,
    recentBlockhash: Hash,
    instructions: seq<CompiledInstruction>,
    lookups: seq<AddressTableLookup>,
    config: Option<TransactionConfig>)

  /** The refusals of Message.validate. */
  function Validate(m: Message): (r: Option<Error>) {
    if m.version == VERSION_LEGACY || m.version == VERSION_1 then
      if |m.lookups| > 0 then Some(UnexpectedLookups) else None
    else if m.version == VERSION_0 then None
    else Some(UnsupportedVersion)
  }

  // ---------------------------------------------------------------- elements

  predicate Anything<T>(x: T) {
    true
  }

  function PutKey(k: PublicKey): (r: seq<byte>) {
    k
  }

  function GetKey(buf: seq<byte>, pos: nat): (r: Parsed<PublicKey>) {
    var (b, p) :- GetBytes(buf, pos, 32);
    Ok(b, p)
  }

  function PutHeader(h: MessageHeader): (r: seq<byte>) {
    [h.numRequiredSignatures, h.numReadonlySignedAccounts, h.numReadonlyUnsignedAccounts]
  }

  function GetHeader(buf: seq<byte>, pos: nat): (r: Parsed<MessageHeader>) {
    var (h1, p1) :- GetU8(buf, pos);
    var (h2, p2) :- GetU8(buf, p1);
    var (h3, p3) :- GetU8(buf, p2);
    Ok(MessageHeader(h1, h2, h3), p3)
  }

  function PutInstruction(ix: CompiledInstruction): (r: seq<byte>) {
    [ix.programIdIndex] + (PutByteVec(ix.accounts) + PutByteVec(ix.data))
  }

  function GetInstruction(buf: seq<byte>, pos: nat): (r: Parsed<CompiledInstruction>) {
    var (pid, p1) :- GetU8(buf, pos);
    var (accounts, p2) :- GetByteVec(buf, p1);
    var (data, p3) :- GetByteVec(buf, p2);
    Ok(CompiledInstruction(pid, accounts, data), p3)
  }

  predicate InstructionFits(ix: CompiledInstruction) {
    |ix.accounts| <= 0xFFFF && |ix.data| <= 0xFFFF
  }

  function PutLookup(lk: AddressTableLookup): (r: seq<byte>) {
    lk.accountKey + (PutByteVec(lk.writableIndexes) + PutByteVec(lk.readonlyIndexes))
  }

  function GetLookup(buf: seq<byte>, pos: nat): (r: Parsed<AddressTableLookup>) {
    var (key, p1) :- GetKey(buf, pos);
    var (writable, p2) :- GetByteVec(buf, p1);
    var (readonly, p3) :- GetByteVec(buf, p2);
    Ok(AddressTableLookup(key, writable, readonly), p3)
  }

  predicate LookupFits(lk: AddressTableLookup) {
    |lk.writableIndexes| <= 0xFFFF && |lk.readonlyIndexes| <= 0xFFFF
  }

  lemma GetFixedExact(buf: seq<byte>, pos: nat, n: nat, b: seq<byte>)
    ensures Exactly(GetBytes(buf, pos, n), b, buf, pos, b, |b| == n)
  {
  }

  lemma KeysLawful()
    ensures Lawful(GetKey, PutKey, Anything<PublicKey>)
  {
  }

  lemma GetHeaderExact(buf: seq<byte>, pos: nat, h: MessageHeader)
    ensures Exactly(GetHeader(buf, pos), h, buf, pos, PutHeader(h), true)
  {
    if pos + 3 <= |buf| {
      assert buf[pos..pos + 3] == [buf[pos], buf[pos + 1], buf[pos + 2]];
    }
  }

  lemma GetInstructionExact(buf: seq<byte>, pos: nat, ix: CompiledInstruction)
    ensures Exactly(GetInstruction(buf, pos), ix, buf, pos, PutInstruction(ix), InstructionFits(ix))
  {
    hide At, PutByteVec, GetByteVec, GetU8;
    var a, d := PutByteVec(ix.accounts), PutByteVec(ix.data);
    AtCat(buf, pos, [ix.programIdIndex], a + d);
    AtCat(buf, pos + 1, a, d);
    GetU8Exact(buf, pos, ix.programIdIndex);
    GetByteVecExact(buf, pos + 1, ix.accounts);
    GetByteVecExact(buf, pos + 1 + |a|, ix.data);
  }

  lemma InstructionsLawful()
    ensures Lawful(GetInstruction, PutInstruction, InstructionFits)
  {
    forall buf: seq<byte>, pos: nat, ix
      ensures Exactly(GetInstruction(buf, pos), ix, buf, pos, PutInstruction(ix), InstructionFits(ix))
    {
      GetInstructionExact(buf, pos, ix);
    }
  }

  lemma GetLookupExact(buf: seq<byte>, pos: nat, lk: AddressTableLookup)
    ensures Exactly(GetLookup(buf, pos), lk, buf, pos, PutLookup(lk), LookupFits(lk))
  {
    hide At;
    var w, r := PutByteVec(lk.writableIndexes), PutByteVec(lk.readonlyIndexes);
    GetFixedExact(buf, pos, 32, lk.accountKey);
    AtCat(buf, pos, lk.accountKey, w + r);
    AtCat(buf, pos + 32, w, r);
    GetByteVecExact(buf, pos + 32, lk.writableIndexes);
    GetByteVecExact(buf, pos + 32 + |w|, lk.readonlyIndexes);
  }

  lemma LookupsLawful()
    ensures Lawful(GetLookup, PutLookup, LookupFits)
  {
    forall buf: seq<byte>, pos: nat, lk
      ensures Exactly(GetLookup(buf, pos), lk, buf, pos, PutLookup(lk), LookupFits(lk))
    {
      GetLookupExact(buf, pos, lk);
    }
  }

  // ---------------------------------------------------------------- vectors of elements

  function PutKeys(ks: seq<PublicKey>): (r: seq<byte>) {
    PutVec(PutKey, ks)
  }

  function GetKeys(buf: seq<byte>, pos: nat): (r: Parsed<seq<PublicKey>>) {
    GetVec(GetKey, buf, pos)
  }

  lemma GetKeysExact(buf: seq<byte>, pos: nat, ks: seq<PublicKey>)
    ensures Exactly(GetKeys(buf, pos), ks, buf, pos, PutKeys(ks), |ks| <= 0xFFFF)
  {
    KeysLawful();
    GetVecExact(GetKey, PutKey, Anything<PublicKey>, buf, pos, ks);
  }

  function PutInstructions(ixs: seq<CompiledInstruction>): (r: seq<byte>) {
    PutVec(PutInstruction, ixs)
  }

  function GetInstructions(buf: seq<byte>, pos: nat): (r: Parsed<seq<CompiledInstruction>>) {
    GetVec(GetInstruction, buf, pos)
  }

  ghost predicate InstructionsFit(ixs: seq<CompiledInstruction>) {
    VecOk(InstructionFits, ixs)
  }

  lemma GetInstructionsExact(buf: seq<byte>, pos: nat, ixs: seq<CompiledInstruction>)
    ensures Exactly(GetInstructions(buf, pos), ixs, buf, pos, PutInstructions(ixs), InstructionsFit(ixs))
  {
    InstructionsLawful();
    GetVecExact(GetInstruction, PutInstruction, InstructionFits, buf, pos, ixs);
  }

  /** Only v0 messages carry lookups on the wire. */
  function PutLookups(version: byte, lks: seq<AddressTableLookup>): (r: seq<byte>) {
    if version == VERSION_0 then PutVec(PutLookup, lks) else []
  }

  function GetLookups(version: byte, buf: seq<byte>, pos: nat): (r: Parsed<seq<AddressTableLookup>>) {
    if version == VERSION_0 then GetVec(GetLookup, buf, pos) else Ok([], pos)
  }

  ghost predicate LookupsFit(version: byte, lks: seq<AddressTableLookup>) {
    if version == VERSION_0 then VecOk(LookupFits, lks) else lks == []
  }

  lemma GetLookupsExact(version: byte, buf: seq<byte>, pos: nat, lks: seq<AddressTableLookup>)
    requires pos <= |buf|
    ensures Exactly(GetLookups(version, buf, pos), lks, buf, pos, PutLookups(version, lks), LookupsFit(version, lks))
  {
    LookupsLawful();
    GetVecExact(GetLookup, PutLookup, LookupFits, buf, pos, lks);
  }

  // ---------------------------------------------------------------- legacy and v0 bodies

  /** What follows the version prefix of a legacy or v0 message. */
  function PutBody(m: Message): (r: seq<byte>) {
    PutHeader(m.header)
    + (PutKeys(m.accountKeys)
       + (m.recentBlockhash
          + (PutInstructions(m.instructions) + PutLookups(m.version, m.lookups))))
  }

  function GetBody(version: byte, buf: seq<byte>, pos: nat): (r: Parsed<Message>) {
    var (header, p1) :- GetHeader(buf, pos);
    var (keys, p2) :- GetKeys(buf, p1);
    var (blockhash, p3) :- GetBytes(buf, p2, 32);
    var (ixs, p4) :- GetInstructions(buf, p3);
    var (lookups, p5) :- GetLookups(version, buf, p4);
    Ok(Message(version, header, keys, blockhash, ixs, lookups, None), p5)
  }

  /** Every count of a legacy or v0 message fits its compact-u16, and nothing is left unwritten. */
  ghost predicate BodyCanonical(version: byte, m: Message) {
    && m.version == version
    && m.config.None?
    && |m.accountKeys| <= 0xFFFF
    && InstructionsFit(m.instructions)
    && LookupsFit(version, m.lookups)
  }

  lemma BodyAt(buf: seq<byte>, pos: nat, m: Message)
    ensures var p1 := pos + 3;
            var p2 := p1 + |PutKeys(m.accountKeys)|;
            var p3 := p2 + 32;
            var p4 := p3 + |PutInstructions(m.instructions)|;
            && pos + |PutBody(m)| == p4 + |PutLookups(m.version, m.lookups)|
            && (At(buf, pos, PutBody(m)) <==>
                && At(buf, pos, PutHeader(m.header)) && At(buf, p1, PutKeys(m.accountKeys))
                && At(buf, p2, m.recentBlockhash) && At(buf, p3, PutInstructions(m.instructions))
                && At(buf, p4, PutLookups(m.version, m.lookups)))
  {
    hide At, PutKeys, PutInstructions, PutLookups;
    var h, ks, bh, ixs, lks := PutHeader(m.header), PutKeys(m.accountKeys), m.recentBlockhash,
                               PutInstructions(m.instructions), PutLookups(m.version, m.lookups);
    var p2 := pos + 3 + |ks|;
    AtCat(buf, pos, h, ks + (bh + (ixs + lks)));
    AtCat(buf, pos + 3, ks, bh + (ixs + lks));
    AtCat(buf, p2, bh, ixs + lks);
    AtCat(buf, p2 + 32, ixs, lks);
  }

  /** The stages of an accepted body. */
  lemma BodyStages(version: byte, buf: seq<byte>, pos: nat, m: Message, p: nat)
    requires GetBody(version, buf, pos) == Ok(m, p)
    ensures var s1 := GetHeader(buf, pos);
            s1.Ok? &&
            var s2 := GetKeys(buf, s1.pos);
            s2.Ok? &&
            var s3 := GetBytes(buf, s2.pos, 32);
            s3.Ok? &&
            var s4 := GetInstructions(buf, s3.pos);
            s4.Ok? &&
            var s5 := GetLookups(version, buf, s4.pos);
            s5.Ok? && p == s5.pos &&
            m == Message(version, s1.value, s2.value, s3.value, s4.value, s5.value, None)
  {
    hide GetKeys, GetInstructions, GetHeader, GetLookups, GetBytes;
  }

  lemma BodyJoin(buf: seq<byte>, pos: nat, p1: nat, p2: nat, p3: nat, p4: nat, p5: nat, m: Message)
    requires p1 == pos + 3 && At(buf, pos, PutHeader(m.header))
    requires p2 == p1 + |PutKeys(m.accountKeys)| && At(buf, p1, PutKeys(m.accountKeys))
    requires p3 == p2 + 32 && At(buf, p2, m.recentBlockhash)
    requires p4 == p3 + |PutInstructions(m.instructions)| && At(buf, p3, PutInstructions(m.instructions))
    requires p5 == p4 + |PutLookups(m.version, m.lookups)| && At(buf, p4, PutLookups(m.version, m.lookups))
    ensures At(buf, pos, PutBody(m)) && p5 == pos + |PutBody(m)|
  {
    hide *;
    BodyAt(buf, pos, m);
  }

  lemma GetBodySound(version: byte, buf: seq<byte>, pos: nat, m: Message, p: nat)
    requires GetBody(version, buf, pos) == Ok(m, p)
    ensures BodyCanonical(version, m) && At(buf, pos, PutBody(m)) && p == pos + |PutBody(m)|
  {
    BodyStages(version, buf, pos, m, p);
    assert |PutHeader(m.header)| == 3;
    hide GetBody, At, GetKeys, PutKeys, GetInstructions, PutInstructions, InstructionsFit, GetHeader, PutHeader,
      GetLookups, PutLookups, LookupsFit, PutBody, GetBytes;
    var p1 := GetHeader(buf, pos).pos;
    var p2 := GetKeys(buf, p1).pos;
    var p3 := GetBytes(buf, p2, 32).pos;
    var p4 := GetInstructions(buf, p3).pos;
    GetHeaderExact(buf, pos, m.header);
    GetKeysExact(buf, p1, m.accountKeys);
    GetFixedExact(buf, p2, 32, m.recentBlockhash);
    GetInstructionsExact(buf, p3, m.instructions);
    AtBound(buf, p3, PutInstructions(m.instructions));
    GetLookupsExact(version, buf, p4, m.lookups);
    BodyJoin(buf, pos, p1, p2, p3, p4, p, m);
  }

  lemma GetBodyComplete(version: byte, buf: seq<byte>, pos: nat, m: Message)
    requires BodyCanonical(version, m) && At(buf, pos, PutBody(m))
    ensures GetBody(version, buf, pos) == Ok(m, pos + |PutBody(m)|)
  {
    BodyAt(buf, pos, m);
    hide At, GetKeys, PutKeys, GetInstructions, PutInstructions, InstructionsFit, GetHeader,
      GetLookups, PutLookups, LookupsFit, PutBody, GetBytes;
    var p2 := pos + 3 + |PutKeys(m.accountKeys)|;
    var p4 := p2 + 32 + |PutInstructions(m.instructions)|;
    GetHeaderExact(buf, pos, m.header);
    GetKeysExact(buf, pos + 3, m.accountKeys);
    GetFixedExact(buf, p2, 32, m.recentBlockhash);
    GetInstructionsExact(buf, p2 + 32, m.instructions);
    AtBound(buf, p2 + 32, PutInstructions(m.instructions));
    GetLookupsExact(version, buf, p4, m.lookups);
  }
}

/**
 Where each field of a message and of a transaction stands in the marshalled bytes: the layouts of
 message.go, message_v1.go and transaction.go by offsets, without the encoders of the codec modules.
 Together the positions cover every byte.
 */
module Layouts {
  import opened Wire
  import opened Message
  import opened MessageV1
  import opened MessageCodec
  import opened TxCodec

  // ---------------------------------------------------------------- counts

  /** What a compact-u16 is: seven bits a byte, low group first, the high bit set on all but the last byte. */
  lemma CompactBytes(v: u16)
    ensures var b := Shortvec(v);
            && |b| == CountSize(v)
            && (forall i :: 0 <= i < |b| ==> (b[i] < 128 <==> i == |b| - 1))
            && v == Groups(b)
  {
    hide Groups;
    var n: int := v;
    if n < 0x80 {
      GroupsStep([n]);
    } else if n < 0x4000 {
      GroupsStep([n % 128 + 128, n / 128]);
      GroupsStep([n / 128]);
    } else {
      ThreeGroups(n % 128, n / 128 % 128, n / 16384);
      Sevens(n);
    }
  }

  lemma ThreeGroups(low: nat, middle: nat, high: nat)
    requires low < 128 && middle < 128 && high < 128
    ensures Groups([low + 128, middle + 128, high]) == low + 128 * (middle + 128 * high)
  {
    hide Groups;
    GroupsStep([low + 128, middle + 128, high]);
    GroupsStep([middle + 128, high]);
    GroupsStep([high]);
  }

  lemma Sevens(n: nat)
    ensures n % 128 + 128 * (n / 128 % 128 + 128 * (n / 16384)) == n
  {
    assert n / 16384 == n / 128 / 128;
  }

  lemma GroupsStep(b: seq<byte>)
    requires |b| > 0
    ensures var low: int := b[0];
            Groups(b) == low % 128 + 128 * if |b| == 1 then 0 else Groups(b[1..])
  {
  }

  function Groups(b: seq<byte>): (v: nat) {
    if |b| == 0 then 0
    else
      var low: int := b[0];
      low % 128 + 128 * Groups(b[1..])
  }

  /** The number of bytes of the count of n elements. */
  function CountSize(n: nat): (k: nat) {
    if n < 0x80 then 1 else if n < 0x4000 then 2 else 3
  }

  // ---------------------------------------------------------------- elements in a row

  /** The size of the first i of xs. */
  function Offset<T>(size: T -> nat, xs: seq<T>, i: nat): (r: nat)
    requires i <= |xs|
  {
    if i == 0 then 0 else Offset(size, xs, i - 1) + size(xs[i - 1])
  }

  lemma {:induction false} PrefixLength<T>(e: T -> seq<byte>, size: T -> nat, xs: seq<T>, i: nat)
    requires i <= |xs| && forall x :: |e(x)| == size(x)
    ensures |PutAll(e, xs[..i])| == Offset(size, xs, i)
  {
    if i > 0 {
      PrefixLength(e, size, xs, i - 1);
      PutAllStep(e, xs, i - 1);
    }
  }

  lemma {:induction false} ElementInPrefix<T>(e: T -> seq<byte>, size: T -> nat, xs: seq<T>, i: nat, j: nat)
    requires i < j <= |xs| && forall x :: |e(x)| == size(x)
    ensures At(PutAll(e, xs[..j]), Offset(size, xs, i), e(xs[i]))
    decreases j
  {
    PutAllStep(e, xs, j - 1);
    if j == i + 1 {
      PrefixLength(e, size, xs, i);
    } else {
      ElementInPrefix(e, size, xs, i, j - 1);
      Longer(PutAll(e, xs[..j - 1]), e(xs[j - 1]), Offset(size, xs, i), e(xs[i]));
    }
  }

  lemma Longer(a: seq<byte>, b: seq<byte>, pos: nat, x: seq<byte>)
    requires At(a, pos, x)
    ensures At(a + b, pos, x)
  {
    assert (a + b)[pos..pos + |x|] == a[pos..pos + |x|];
  }

  lemma Within(buf: seq<byte>, pos: nat, e: seq<byte>, off: nat, x: seq<byte>)
    requires At(buf, pos, e) && At(e, off, x)
    ensures At(buf, pos + off, x)
  {
    var front, back := e[..off], e[off + |x|..];
    assert e == front + (x + back);
    hide At;
    AtCat(buf, pos, front, x + back);
    AtCat(buf, pos + off, x, back);
  }

  /** The elements xs of a row that stands in buf at pos stand one behind the other. */
  lemma ElementsStand<T>(e: T -> seq<byte>, size: T -> nat, xs: seq<T>, buf: seq<byte>, pos: nat)
    requires At(buf, pos, PutAll(e, xs)) && forall x :: |e(x)| == size(x)
    ensures |PutAll(e, xs)| == Offset(size, xs, |xs|)
    ensures forall i: nat :: i < |xs| ==> At(buf, pos + Offset(size, xs, i), e(xs[i]))
  {
    hide At, PutAll, Offset;
    assert xs[..|xs|] == xs;
    PrefixLength(e, size, xs, |xs|);
    forall i: nat | i < |xs| ensures At(buf, pos + Offset(size, xs, i), e(xs[i])) {
      ElementInPrefix(e, size, xs, i, |xs|);
      Within(buf, pos, PutAll(e, xs), Offset(size, xs, i), e(xs[i]));
    }
  }

  lemma {:induction false} FixedOffset<T>(size: T -> nat, k: nat, xs: seq<T>, i: nat)
    requires i <= |xs| && forall x :: size(x) == k
    ensures Offset(size, xs, i) == i * k
  {
    if i > 0 {
      FixedOffset(size, k, xs, i - 1);
    }
  }

  /** Elements of k bytes each: element i stands at i * k. */
  lemma RowStands<T>(e: T -> seq<byte>, k: nat, xs: seq<T>, buf: seq<byte>, pos: nat)
    requires At(buf, pos, PutAll(e, xs)) && forall x :: |e(x)| == k
    ensures |PutAll(e, xs)| == |xs| * k
    ensures forall i: nat :: i < |xs| ==> At(buf, pos + i * k, e(xs[i]))
  {
    var size := (x: T) => k;
    ElementsStand(e, size, xs, buf, pos);
    forall i: nat | i <= |xs| ensures Offset(size, xs, i) == i * k {
      FixedOffset(size, k, xs, i);
    }
  }

  // ---------------------------------------------------------------- legacy and v0 messages

  /** The n keys of ks, 32 bytes each. */
  ghost predicate KeysStand(b: seq<byte>, p: nat, ks: seq<PublicKey>) {
    forall i: nat :: i < |ks| ==> At(b, p + i * 32, ks[i])
  }

  /** The header's three counts: required signatures, readonly signers, readonly non-signers. */
  ghost predicate HeaderStands(b: seq<byte>, p: nat, h: MessageHeader) {
    && p + 3 <= |b|
    && b[p] == h.numRequiredSignatures
    && b[p + 1] == h.numReadonlySignedAccounts
    && b[p + 2] == h.numReadonlyUnsignedAccounts
  }

  /** A byte string behind its count. */
  ghost predicate Counted(b: seq<byte>, p: nat, s: seq<byte>) {
    At(b, p, Shortvec(|s|)) && At(b, p + CountSize(|s|), s)
  }

  function CountedSize(s: seq<byte>): (n: nat) {
    CountSize(|s|) + |s|
  }

  function InstructionSize(ix: CompiledInstruction): (n: nat) {
    1 + CountedSize(ix.accounts) + CountedSize(ix.data)
  }

  ghost predicate InstructionStands(b: seq<byte>, p: nat, ix: CompiledInstruction) {
    && p < |b| && b[p] == ix.programIdIndex
    && Counted(b, p + 1, ix.accounts)
    && Counted(b, p + 1 + CountedSize(ix.accounts), ix.data)
  }

  function LookupSize(lk: AddressTableLookup): (n: nat) {
    32 + CountedSize(lk.writableIndexes) + CountedSize(lk.readonlyIndexes)
  }

  ghost predicate LookupStands(b: seq<byte>, p: nat, lk: AddressTableLookup) {
    && At(b, p, lk.accountKey)
    && Counted(b, p + 32, lk.writableIndexes)
    && Counted(b, p + 32 + CountedSize(lk.writableIndexes), lk.readonlyIndexes)
  }

  ghost predicate InstructionsStand(b: seq<byte>, p: nat, ixs: seq<CompiledInstruction>) {
    && At(b, p, Shortvec(|ixs|))
    && forall i: nat :: i < |ixs| ==>
         InstructionStands(b, p + CountSize(|ixs|) + Offset(InstructionSize, ixs, i), ixs[i])
  }

  ghost predicate LookupsStand(b: seq<byte>, p: nat, lks: seq<AddressTableLookup>) {
    && At(b, p, Shortvec(|lks|))
    && forall i: nat :: i < |lks| ==> LookupStands(b, p + CountSize(|lks|) + Offset(LookupSize, lks, i), lks[i])
  }

  /** Where the body begins: behind the version byte, which a legacy message does not have. */
  function Start(m: Message): (p: nat) {
    if m.version == 0xFF then 0 else 1
  }

  function BlockhashAt(m: Message): (p: nat) {
    Start(m) + 3 + CountSize(|m.accountKeys|) + |m.accountKeys| * 32
  }

  function LookupsStart(m: Message): (p: nat) {
    BlockhashAt(m) + 32 + CountSize(|m.instructions|) + Offset(InstructionSize, m.instructions, |m.instructions|)
  }

  /** Where a legacy or v0 message ends. */
  function End(m: Message): (p: nat) {
    if m.version != 0 then LookupsStart(m)
    else LookupsStart(m) + CountSize(|m.lookups|) + Offset(LookupSize, m.lookups, |m.lookups|)
  }

  lemma CountLength(n: nat)
    ensures |Shortvec(n)| == CountSize(n)
  {
  }

  lemma InstructionSizes()
    ensures forall x :: |PutInstruction(x)| == InstructionSize(x)
  {
  }

  lemma InstructionLayout(b: seq<byte>, p: nat, ix: CompiledInstruction)
    requires At(b, p, PutInstruction(ix))
    ensures InstructionStands(b, p, ix)
  {
    hide At;
    var x, y := PutByteVec(ix.accounts), PutByteVec(ix.data);
    AtCat(b, p, [ix.programIdIndex], x + y);
    GetU8Exact(b, p, ix.programIdIndex);
    AtCat(b, p + 1, x, y);
    AtCat(b, p + 1, Shortvec(|ix.accounts|), ix.accounts);
    AtCat(b, p + 1 + |x|, Shortvec(|ix.data|), ix.data);
  }

  lemma LookupSizes()
    ensures forall x :: |PutLookup(x)| == LookupSize(x)
  {
  }

  lemma LookupLayout(b: seq<byte>, p: nat, lk: AddressTableLookup)
    requires At(b, p, PutLookup(lk))
    ensures LookupStands(b, p, lk)
  {
    hide At;
    var x, y := PutByteVec(lk.writableIndexes), PutByteVec(lk.readonlyIndexes);
    AtCat(b, p, lk.accountKey, x + y);
    AtCat(b, p + 32, x, y);
    AtCat(b, p + 32, Shortvec(|lk.writableIndexes|), lk.writableIndexes);
    AtCat(b, p + 32 + |x|, Shortvec(|lk.readonlyIndexes|), lk.readonlyIndexes);
  }

  lemma HeaderLayout(b: seq<byte>, p: nat, h: MessageHeader)
    requires At(b, p, PutHeader(h))
    ensures HeaderStands(b, p, h)
  {
    assert b[p..p + 3][0] == b[p] && b[p..p + 3][1] == b[p + 1] && b[p..p + 3][2] == b[p + 2];
  }

  lemma KeysLayout(b: seq<byte>, p: nat, ks: seq<PublicKey>)
    requires At(b, p, PutKeys(ks))
    ensures At(b, p, Shortvec(|ks|)) && KeysStand(b, p + CountSize(|ks|), ks)
    ensures |PutKeys(ks)| == CountSize(|ks|) + |ks| * 32
  {
    hide At;
    AtCat(b, p, Shortvec(|ks|), PutAll(PutKey, ks));
    RowStands(PutKey, 32, ks, b, p + CountSize(|ks|));
  }

  lemma InstructionsLayout(b: seq<byte>, p: nat, ixs: seq<CompiledInstruction>)
    requires At(b, p, PutInstructions(ixs))
    ensures InstructionsStand(b, p, ixs)
    ensures |PutInstructions(ixs)| == CountSize(|ixs|) + Offset(InstructionSize, ixs, |ixs|)
  {
    hide At, InstructionStands, PutInstruction, InstructionSize, PutAll, Offset, CountSize;
    AtCat(b, p, Shortvec(|ixs|), PutAll(PutInstruction, ixs));
    CountLength(|ixs|);
    InstructionSizes();
    ElementsStand(PutInstruction, InstructionSize, ixs, b, p + CountSize(|ixs|));
    forall i: nat | i < |ixs|
      ensures InstructionStands(b, p + CountSize(|ixs|) + Offset(InstructionSize, ixs, i), ixs[i])
    {
      InstructionLayout(b, p + CountSize(|ixs|) + Offset(InstructionSize, ixs, i), ixs[i]);
    }
  }

  lemma LookupsLayout(b: seq<byte>, p: nat, lks: seq<AddressTableLookup>)
    requires At(b, p, PutVec(PutLookup, lks))
    ensures LookupsStand(b, p, lks)
    ensures |PutVec(PutLookup, lks)| == CountSize(|lks|) + Offset(LookupSize, lks, |lks|)
  {
    hide At, LookupStands, PutLookup, LookupSize, PutAll, Offset, CountSize;
    AtCat(b, p, Shortvec(|lks|), PutAll(PutLookup, lks));
    CountLength(|lks|);
    LookupSizes();
    ElementsStand(PutLookup, LookupSize, lks, b, p + CountSize(|lks|));
    forall i: nat | i < |lks| ensures LookupStands(b, p + CountSize(|lks|) + Offset(LookupSize, lks, i), lks[i]) {
      LookupLayout(b, p + CountSize(|lks|) + Offset(LookupSize, lks, i), lks[i]);
    }
  }

  /** The wire layout of legacy and v0 messages. */
  lemma BodyLayout(m: Message)
    requires Marshal(m).Success? && m.version != 1
    ensures var b := Marshal(m).value;
            && |b| == End(m)
            && (m.version == 0 ==> b[0] == 0x80)
            && HeaderStands(b, Start(m), m.header)
            && At(b, Start(m) + 3, Shortvec(|m.accountKeys|))
            && KeysStand(b, Start(m) + 3 + CountSize(|m.accountKeys|), m.accountKeys)
            && At(b, BlockhashAt(m), m.recentBlockhash)
            && InstructionsStand(b, BlockhashAt(m) + 32, m.instructions)
            && (m.version == 0 ==> LookupsStand(b, LookupsStart(m), m.lookups))
  {
    hide At, HeaderStands, KeysStand, InstructionsStand, LookupsStand, PutHeader, PutKeys, PutInstructions, PutVec,
      Offset, CountSize, PutBody, Fits;
    var b, s := Marshal(m).value, Start(m);
    assert PutPrefix(0xFF) + PutBody(m) == PutBody(m);
    AtEnd(PutPrefix(m.version), PutBody(m));
    BodyAt(b, s, m);
    HeaderLayout(b, s, m.header);
    KeysLayout(b, s + 3, m.accountKeys);
    InstructionsLayout(b, BlockhashAt(m) + 32, m.instructions);
    if m.version == 0 {
      LookupsLayout(b, LookupsStart(m), m.lookups);
    }
  }

  lemma AtEnd(a: seq<byte>, e: seq<byte>)
    ensures At(a + e, |a|, e)
  {
    assert (a + e)[|a|..|a| + |e|] == e;
  }

  // ---------------------------------------------------------------- v1 messages

  function LimitsAt(m: Message): (p: nat) {
    42 + |m.accountKeys| * 32
  }

  function UnitsAt(m: Message): (p: nat) {
    LimitsAt(m) + 8 * One(ConfigOf(m).priorityFee.Some?)
  }

  function DataSizeAt(m: Message): (p: nat) {
    UnitsAt(m) + 4 * One(ConfigOf(m).computeUnitLimit.Some?)
  }

  function HeapSizeAt(m: Message): (p: nat) {
    DataSizeAt(m) + 4 * One(ConfigOf(m).loadedAccountsDataSizeLimit.Some?)
  }

  function MetasAt(m: Message): (p: nat) {
    HeapSizeAt(m) + 4 * One(ConfigOf(m).heapSize.Some?)
  }

  /** The optional limits, each present one behind the one before. */
  ghost predicate LimitsStand(b: seq<byte>, m: Message) {
    var c := ConfigOf(m);
    && (c.priorityFee.Some? ==> At(b, LimitsAt(m), LE(c.priorityFee.value, 8)))
    && (c.computeUnitLimit.Some? ==> At(b, UnitsAt(m), LE(c.computeUnitLimit.value, 4)))
    && (c.loadedAccountsDataSizeLimit.Some? ==> At(b, DataSizeAt(m), LE(c.loadedAccountsDataSizeLimit.value, 4)))
    && (c.heapSize.Some? ==> At(b, HeapSizeAt(m), LE(c.heapSize.value, 4)))
  }

  /** The mask announces the limits that follow: the low two bits together the fee, one bit each other limit. */
  ghost predicate MaskStands(b: seq<byte>, c: TransactionConfig) {
    && |b| >= 8 && b[5] == b[6] == b[7] == 0
    && b[4] == 3 * One(c.priorityFee.Some?) + 4 * One(c.computeUnitLimit.Some?)
             + 8 * One(c.loadedAccountsDataSizeLimit.Some?) + 16 * One(c.heapSize.Some?)
  }

  /** The counts of every instruction in a row, four bytes each. */
  ghost predicate MetasStand(b: seq<byte>, p: nat, ixs: seq<CompiledInstruction>) {
    forall i: nat :: i < |ixs| ==>
      At(b, p + i * 4, [ixs[i].programIdIndex, |ixs[i].accounts| % 256] + LE(|ixs[i].data|, 2))
  }

  function PayloadSize(ix: CompiledInstruction): (n: nat) {
    |ix.accounts| + |ix.data|
  }

  /** The accounts and data of every instruction, without counts. */
  ghost predicate PayloadsStand(b: seq<byte>, p: nat, ixs: seq<CompiledInstruction>) {
    forall i: nat :: i < |ixs| ==>
      && At(b, p + Offset(PayloadSize, ixs, i), ixs[i].accounts)
      && At(b, p + Offset(PayloadSize, ixs, i) + |ixs[i].accounts|, ixs[i].data)
  }

  lemma HeadLayout(b: seq<byte>, m: Message)
    requires At(b, 1, PutHead(HeadOf(m))) && |m.accountKeys| <= 255 && |m.instructions| <= 255
    ensures HeaderStands(b, 1, m.header) && MaskStands(b, ConfigOf(m)) && At(b, 8, m.recentBlockhash)
    ensures |b| >= 42 && b[40] == |m.instructions| && b[41] == |m.accountKeys|
  {
    var h := HeadOf(m);
    var hd, mk, bh, n := PutHeader(h.header), LE(h.mask, 4), h.blockhash, [h.ixCount, h.keyCount];
    AtCat(b, 1, hd, mk + (bh + n));
    AtCat(b, 4, mk, bh + n);
    AtCat(b, 8, bh, n);
    hide PutHead;
    HeaderLayout(b, 1, m.header);
    MaskLayout(b, ConfigOf(m));
    assert b[40..42][0] == b[40] && b[40..42][1] == b[41];
  }

  lemma MaskLayout(b: seq<byte>, c: TransactionConfig)
    requires At(b, 4, LE(ConfigMask(c), 4))
    ensures MaskStands(b, c)
  {
    var mask := ConfigMask(c);
    LEOfByte(mask);
    assert b[4..8][0] == b[4] && b[4..8][1] == b[5] && b[4..8][2] == b[6] && b[4..8][3] == b[7];
  }

  lemma LEOfByte(v: nat)
    requires v < 256
    ensures LE(v, 4) == [v, 0, 0, 0]
  {
    assert LE(0, 1) == [0] + LE(0, 0);
    assert LE(0, 2) == [0] + LE(0, 1);
    assert LE(0, 3) == [0] + LE(0, 2);
  }

  lemma LimitsLayout(b: seq<byte>, m: Message)
    requires At(b, LimitsAt(m), PutConfig(ConfigOf(m)))
    ensures LimitsStand(b, m) && LimitsAt(m) + |PutConfig(ConfigOf(m))| == MetasAt(m)
  {
    hide At, ConfigOf;
    var c := ConfigOf(m);
    var f, u, d, h := PutOptU64(c.priorityFee), PutOptU32(c.computeUnitLimit),
                      PutOptU32(c.loadedAccountsDataSizeLimit), PutOptU32(c.heapSize);
    AtCat(b, LimitsAt(m), f, u + (d + h));
    AtCat(b, UnitsAt(m), u, d + h);
    AtCat(b, DataSizeAt(m), d, h);
  }

  lemma MetasLayout(b: seq<byte>, p: nat, ixs: seq<CompiledInstruction>)
    requires At(b, p, PutMetas(MetasOf(ixs))) && InstructionsFitV1(ixs)
    ensures MetasStand(b, p, ixs) && |PutMetas(MetasOf(ixs))| == |ixs| * 4
  {
    hide At;
    RowStands(PutMeta, 4, MetasOf(ixs), b, p);
    forall i: nat | i < |ixs|
      ensures At(b, p + i * 4, [ixs[i].programIdIndex, |ixs[i].accounts| % 256] + LE(|ixs[i].data|, 2))
    {
      assert PutMeta(MetasOf(ixs)[i]) == [ixs[i].programIdIndex, |ixs[i].accounts| % 256] + LE(|ixs[i].data|, 2);
    }
  }

  lemma PayloadsLayout(b: seq<byte>, p: nat, ixs: seq<CompiledInstruction>)
    requires At(b, p, PutPayloads(ixs))
    ensures PayloadsStand(b, p, ixs) && |PutPayloads(ixs)| == Offset(PayloadSize, ixs, |ixs|)
  {
    hide At, Offset;
    ElementsStand(PutPayload, PayloadSize, ixs, b, p);
    forall i: nat | i < |ixs|
      ensures At(b, p + Offset(PayloadSize, ixs, i), ixs[i].accounts)
      ensures At(b, p + Offset(PayloadSize, ixs, i) + |ixs[i].accounts|, ixs[i].data)
    {
      AtCat(b, p + Offset(PayloadSize, ixs, i), ixs[i].accounts, ixs[i].data);
    }
  }

  /** The wire layout of v1 messages. */
  lemma V1Layout(m: Message)
    requires Marshal(m).Success? && m.version == 1
    ensures var b, p := Marshal(m).value, MetasAt(m) + |m.instructions| * 4;
            && |b| == p + Offset(PayloadSize, m.instructions, |m.instructions|)
            && b[0] == 0x81
            && HeaderStands(b, 1, m.header)
            && MaskStands(b, ConfigOf(m))
            && At(b, 8, m.recentBlockhash)
            && b[40] == |m.instructions| && b[41] == |m.accountKeys|
            && KeysStand(b, 42, m.accountKeys)
            && LimitsStand(b, m)
            && MetasStand(b, MetasAt(m), m.instructions)
            && PayloadsStand(b, p, m.instructions)
  {
    hide At, HeaderStands, MaskStands, KeysStand, LimitsStand, MetasStand, PayloadsStand, PutHead, PutAllKeys,
      PutConfig, PutMetas, PutPayloads, Offset, HeadOf, MetasOf, Marshal, InstructionsFitV1, MetasAt, ConfigOf,
      UnitsAt, DataSizeAt, HeapSizeAt;
    var b := Marshal(m).value;
    V1Parts(m, b);
    HeadLayout(b, m);
    RowStandsKeys(b, 42, m.accountKeys);
    LimitsLayout(b, m);
    MetasLayout(b, MetasAt(m), m.instructions);
    PayloadsLayout(b, MetasAt(m) + |m.instructions| * 4, m.instructions);
  }

  lemma RowStandsKeys(b: seq<byte>, p: nat, ks: seq<PublicKey>)
    requires At(b, p, PutAllKeys(ks))
    ensures KeysStand(b, p, ks) && |PutAllKeys(ks)| == |ks| * 32
  {
    hide At;
    RowStands(PutKey, 32, ks, b, p);
  }

  lemma HeadLength(h: Head)
    ensures |PutHead(h)| == 41
  {
  }

  /** The parts of a v1 message one behind the other. */
  lemma V1Parts(m: Message, b: seq<byte>)
    requires Marshal(m) == Success(b) && m.version == 1
    ensures |m.accountKeys| <= 255 && |m.instructions| <= 255 && InstructionsFitV1(m.instructions)
    ensures |b| > 0 && b[0] == 0x81 && At(b, 1, PutHead(HeadOf(m))) && |PutHead(HeadOf(m))| == 41
    ensures var ks, c, ms := |PutAllKeys(m.accountKeys)|, |PutConfig(ConfigOf(m))|, |PutMetas(MetasOf(m.instructions))|;
            && At(b, 42, PutAllKeys(m.accountKeys))
            && At(b, 42 + ks, PutConfig(ConfigOf(m)))
            && At(b, 42 + ks + c, PutMetas(MetasOf(m.instructions)))
            && At(b, 42 + ks + c + ms, PutPayloads(m.instructions))
            && |b| == 42 + ks + c + ms + |PutPayloads(m.instructions)|
  {
    hide At, PutAllKeys, PutConfig, PutMetas, PutPayloads, HeadOf, MetasOf, ConfigOf, InstructionsFitV1, PutBodyV1,
      PutHead, InstructionFitsV1;
    HeadLength(HeadOf(m));
    AtEnd([0x81], PutBodyV1(m));
    var p1, p2, p3, p4 := BodyV1Split(b, 1, m);
  }

  // ---------------------------------------------------------------- transactions

  ghost predicate SignaturesStand(b: seq<byte>, p: nat, sigs: seq<Signature>) {
    forall i: nat :: i < |sigs| ==> At(b, p + i * 64, sigs[i])
  }

  /** Signatures stand behind a v1 message, and counted in front of any other. */
  lemma TxLayout(tx: Tx)
    requires MarshalTx(tx).Success?
    ensures Marshal(tx.message).Success?
    ensures var b, msg, n := MarshalTx(tx).value, Marshal(tx.message).value, |tx.signatures|;
            if tx.message.version == 1 then
              At(b, 0, msg) && SignaturesStand(b, |msg|, tx.signatures) && |b| == |msg| + n * 64
            else
              && At(b, 0, Shortvec(n)) && SignaturesStand(b, CountSize(n), tx.signatures)
              && At(b, CountSize(n) + n * 64, msg) && |b| == CountSize(n) + n * 64 + |msg|
  {
    hide At, Fits, PutMessage;
    var b, msg, sigs := MarshalTx(tx).value, Marshal(tx.message).value, tx.signatures;
    var rest := PutAll(PutSignature, sigs);
    AtWhole(b, []);
    assert b + [] == b;
    if tx.message.version == 1 {
      AtCat(b, 0, msg, rest);
      RowStands(PutSignature, 64, sigs, b, |msg|);
    } else {
      var count := Shortvec(|sigs|);
      AtCat(b, 0, PutSignatureVec(sigs), msg);
      AtCat(b, 0, count, rest);
      RowStands(PutSignature, 64, sigs, b, |count|);
    }
  }
}

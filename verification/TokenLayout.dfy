/**
 The Token-2022 extensions as bytes: what an entry of each type has to hold for the decoded extensions
 to be given ones, by offsets and without the decoders of module Token2022.
 */
module TokenLayout {
  import opened Wire
  import opened Message
  import opened Token2022
  import Bincode

  // ---------------------------------------------------------------- fields

  /** No authority is 32 zeros; an authority is a key that is not. */
  ghost predicate KeyStands(raw: seq<byte>, p: nat, o: Option<PublicKey>) {
    match o
    case None => At(raw, p, ZeroBytes(32))
    case Some(k) => k != ZeroBytes(32) && At(raw, p, k)
  }

  /** v stands at p as an unsigned integer of k bytes. */
  ghost predicate UintStands(raw: seq<byte>, p: nat, k: nat, v: nat) {
    v < Pow256(k) && At(raw, p, LE(v, k))
  }

  /** i stands at p in two's complement: a negative number as its sum with 256^k. */
  ghost predicate IntStands(raw: seq<byte>, p: nat, k: nat, i: int) {
    var size: int := Pow256(k);
    -size <= 2 * i < size && At(raw, p, LE(if i < 0 then i + size else i, k))
  }

  lemma OptPubkeyExactly(raw: seq<byte>, p: nat, o: Option<PublicKey>)
    requires p + 32 <= |raw|
    ensures OptPubkey(raw[p..p + 32]) == o <==> KeyStands(raw, p, o)
  {
    var b := raw[p..p + 32];
    assert b[..32] == b;
  }

  lemma UnsignedExactly(raw: seq<byte>, p: nat, q: nat, v: nat)
    requires p <= q <= |raw|
    ensures Unsigned(raw, p, q) == v <==> UintStands(raw, p, q - p, v)
  {
    GetLEExact(raw, p, q - p, v);
    hide LEValue, Pow256, LE;
  }

  lemma SignedExactly(raw: seq<byte>, p: nat, q: nat, i: int)
    requires p <= q <= |raw|
    ensures Signed(raw, p, q) == i <==> IntStands(raw, p, q - p, i)
  {
    hide LEValue, Pow256, LE;
    var size: int := Pow256(q - p);
    if -size <= 2 * i < size {
      UnsignedExactly(raw, p, q, if i < 0 then i + size else i);
    }
  }

  // ---------------------------------------------------------------- extensions

  ghost predicate FeeStands(raw: seq<byte>, p: nat, f: TransferFee) {
    UintStands(raw, p, 8, f.epoch) && UintStands(raw, p + 8, 8, f.maximumFee)
    && UintStands(raw, p + 16, 2, f.basisPoints)
  }

  ghost predicate FeeConfigStands(raw: seq<byte>, c: TransferFeeConfig) {
    && |raw| >= 108
    && KeyStands(raw, 0, c.configAuthority) && KeyStands(raw, 32, c.withdrawAuthority)
    && UintStands(raw, 64, 8, c.withheldAmount)
    && FeeStands(raw, 72, c.older) && FeeStands(raw, 90, c.newer)
  }

  ghost predicate InterestStands(raw: seq<byte>, c: InterestBearing) {
    && |raw| >= 52
    && KeyStands(raw, 0, c.rateAuthority)
    && IntStands(raw, 32, 8, c.initialized) && IntStands(raw, 40, 2, c.preUpdateRate)
    && IntStands(raw, 42, 8, c.lastUpdate) && IntStands(raw, 50, 2, c.currentRate)
  }

  ghost predicate PairStands(raw: seq<byte>, c: TwoKeys) {
    |raw| >= 64 && KeyStands(raw, 0, c.authority) && KeyStands(raw, 32, c.other)
  }

  lemma FeeConfigExactly(raw: seq<byte>, c: TransferFeeConfig)
    requires |raw| >= 108
    ensures FeeConfig(raw) == c <==> FeeConfigStands(raw, c)
  {
    hide OptPubkey, Unsigned, KeyStands, UintStands;
    OptPubkeyExactly(raw, 0, c.configAuthority);
    OptPubkeyExactly(raw, 32, c.withdrawAuthority);
    UnsignedExactly(raw, 64, 72, c.withheldAmount);
    UnsignedExactly(raw, 72, 80, c.older.epoch);
    UnsignedExactly(raw, 80, 88, c.older.maximumFee);
    UnsignedExactly(raw, 88, 90, c.older.basisPoints);
    UnsignedExactly(raw, 90, 98, c.newer.epoch);
    UnsignedExactly(raw, 98, 106, c.newer.maximumFee);
    UnsignedExactly(raw, 106, 108, c.newer.basisPoints);
  }

  lemma InterestExactly(raw: seq<byte>, c: InterestBearing)
    requires |raw| >= 52
    ensures Interest(raw) == c <==> InterestStands(raw, c)
  {
    hide OptPubkey, Signed, KeyStands, IntStands;
    OptPubkeyExactly(raw, 0, c.rateAuthority);
    SignedExactly(raw, 32, 40, c.initialized);
    SignedExactly(raw, 40, 42, c.preUpdateRate);
    SignedExactly(raw, 42, 50, c.lastUpdate);
    SignedExactly(raw, 50, 52, c.currentRate);
  }

  lemma PairExactly(raw: seq<byte>, c: TwoKeys)
    requires |raw| >= 64
    ensures Pair(raw) == c <==> PairStands(raw, c)
  {
    hide OptPubkey, KeyStands;
    OptPubkeyExactly(raw, 0, c.authority);
    OptPubkeyExactly(raw, 32, c.other);
  }

  // ---------------------------------------------------------------- whole extensions

  /** An entry's type and its length stand in front of its value, low byte first. */
  lemma EntryBytes(e: Token2022.Entry)
    requires |e.raw| < 0x1_0000
    ensures Encoded(e) == [e.typ % 256, e.typ / 256, |e.raw| % 256, |e.raw| / 256] + e.raw
  {
    Bincode.LEOfTwo(e.typ);
    Bincode.LEOfTwo(|e.raw|);
  }

  /** The entry of type t, if there is one with at least size bytes. */
  function Long(m: map<u16, seq<byte>>, t: u16, size: nat): (r: Option<seq<byte>>)
    ensures r.Some? ==> |r.value| >= size
  {
    if t in m && |m[t]| >= size then Some(m[t]) else None
  }

  /** The entries spell the extensions x of a mint. */
  ghost predicate SpellsMint(m: map<u16, seq<byte>>, x: MintExtensions) {
    && SpellsFees(Long(m, 1, 108), x.transferFeeConfig)
    && SpellsKey(Long(m, 3, 32), x.closeAuthority)
    && SpellsByte(Long(m, 6, 1), x.defaultState)
    && (x.nonTransferable <==> 9 in m)
    && SpellsInterest(Long(m, 10, 52), x.interestBearing)
    && SpellsKey(Long(m, 12, 32), x.permanentDelegate)
    && SpellsPair(Long(m, 16, 64), x.metadataPointer)
    && SpellsPair(Long(m, 18, 64), x.transferHook)
  }

  ghost predicate SpellsFees(raw: Option<seq<byte>>, c: Option<TransferFeeConfig>) {
    raw.Some? == c.Some? && (raw.Some? ==> FeeConfigStands(raw.value, c.value))
  }

  ghost predicate SpellsInterest(raw: Option<seq<byte>>, c: Option<InterestBearing>) {
    raw.Some? == c.Some? && (raw.Some? ==> InterestStands(raw.value, c.value))
  }

  ghost predicate SpellsPair(raw: Option<seq<byte>>, c: Option<TwoKeys>) {
    raw.Some? == c.Some? && (raw.Some? ==> PairStands(raw.value, c.value))
  }

  /** An entry that holds zeros is no different from none. */
  ghost predicate SpellsKey(raw: Option<seq<byte>>, o: Option<PublicKey>) {
    if raw.None? then o.None? else KeyStands(raw.value, 0, o)
  }

  predicate SpellsByte(raw: Option<seq<byte>>, o: Option<byte>) {
    raw.Some? == o.Some? && (raw.Some? ==> |raw.value| > 0 && raw.value[0] == o.value)
  }

  predicate SpellsFlag(raw: Option<seq<byte>>, o: Option<bool>) {
    raw.Some? == o.Some? && (raw.Some? ==> |raw.value| > 0 && (o.value <==> raw.value[0] != 0))
  }

  ghost predicate SpellsAmount(raw: Option<seq<byte>>, o: Option<nat>) {
    raw.Some? == o.Some? && (raw.Some? ==> UintStands(raw.value, 0, 8, o.value))
  }

  ghost predicate SpellsAccount(m: map<u16, seq<byte>>, x: AccountExtensions) {
    && SpellsAmount(Long(m, 2, 8), x.withheldAmount)
    && (x.immutableOwner <==> 7 in m)
    && SpellsFlag(Long(m, 8, 1), x.memoTransfer)
    && SpellsFlag(Long(m, 11, 1), x.cpiGuard)
  }

  lemma KeyOfEntry(raw: Option<seq<byte>>, o: Option<PublicKey>)
    requires raw.Some? ==> |raw.value| >= 32
    ensures SpellsKey(raw, o) <==> (if raw.Some? then OptPubkey(raw.value) else None) == o
  {
    if raw.Some? {
      OptPubkeyExactly(raw.value, 0, o);
      assert raw.value[0..32][..32] == raw.value[..32];
    }
  }

  lemma FeesOfEntry(raw: Option<seq<byte>>, c: Option<TransferFeeConfig>)
    requires raw.Some? ==> |raw.value| >= 108
    ensures SpellsFees(raw, c) <==> (if raw.Some? then Some(FeeConfig(raw.value)) else None) == c
  {
    hide FeeConfig, FeeConfigStands;
    if raw.Some? && c.Some? {
      FeeConfigExactly(raw.value, c.value);
    }
  }

  lemma InterestOfEntry(raw: Option<seq<byte>>, c: Option<InterestBearing>)
    requires raw.Some? ==> |raw.value| >= 52
    ensures SpellsInterest(raw, c) <==> (if raw.Some? then Some(Interest(raw.value)) else None) == c
  {
    hide Interest, InterestStands;
    if raw.Some? && c.Some? {
      InterestExactly(raw.value, c.value);
    }
  }

  lemma PairOfEntry(raw: Option<seq<byte>>, c: Option<TwoKeys>)
    requires raw.Some? ==> |raw.value| >= 64
    ensures SpellsPair(raw, c) <==> (if raw.Some? then Some(Pair(raw.value)) else None) == c
  {
    hide Pair, PairStands;
    if raw.Some? && c.Some? {
      PairExactly(raw.value, c.value);
    }
  }

  lemma AmountOfEntry(raw: Option<seq<byte>>, o: Option<nat>)
    requires raw.Some? ==> |raw.value| >= 8
    ensures SpellsAmount(raw, o) <==> (if raw.Some? then Some(Unsigned(raw.value, 0, 8)) else None) == o
  {
    hide Unsigned, UintStands;
    if raw.Some? && o.Some? {
      UnsignedExactly(raw.value, 0, 8, o.value);
    }
  }

  /**
   A region of entries, however they are ordered and repeated, decodes to the mint extensions x if and
   only if the last entries of each type spell x.
   */
  lemma MintExtensionsExactly(es: seq<Token2022.Entry>, tail: seq<byte>, x: MintExtensions)
    requires Proper(es) && !StartsEntry(tail)
    ensures MintFields(LastWins(Entries(Concat(es) + tail))) == x <==> SpellsMint(LastWins(es), x)
  {
    hide Entries, Concat, LastWins, StartsEntry, OptPubkey, FeeConfig, Interest, Pair, SpellsKey, SpellsFees,
      SpellsInterest, SpellsPair;
    ConcatParses(es, tail);
    var m := LastWins(es);
    FeesOfEntry(Long(m, 1, 108), x.transferFeeConfig);
    KeyOfEntry(Long(m, 3, 32), x.closeAuthority);
    InterestOfEntry(Long(m, 10, 52), x.interestBearing);
    KeyOfEntry(Long(m, 12, 32), x.permanentDelegate);
    PairOfEntry(Long(m, 16, 64), x.metadataPointer);
    PairOfEntry(Long(m, 18, 64), x.transferHook);
  }

  /** The same for the extensions of an account. */
  lemma AccountExtensionsExactly(es: seq<Token2022.Entry>, tail: seq<byte>, x: AccountExtensions)
    requires Proper(es) && !StartsEntry(tail)
    ensures AccountFields(LastWins(Entries(Concat(es) + tail))) == x <==> SpellsAccount(LastWins(es), x)
  {
    hide Entries, Concat, LastWins, StartsEntry, Unsigned, SpellsAmount;
    ConcatParses(es, tail);
    AmountOfEntry(Long(LastWins(es), 2, 8), x.withheldAmount);
  }
}

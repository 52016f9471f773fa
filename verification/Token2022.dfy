/**
 Token-2022 extension data (programs/token2022/state.go): a type-length-value region parsed in a
 loop into a map, whose arbitrary iteration order must not show in the decoded extensions.
 */
module Token2022 {
  import opened Wire
  import opened Message
  import GoTypes

  // ---------------------------------------------------------------- the TLV region

  datatype Entry = Entry(typ: u16, raw: seq<byte>)

  /** Type and length as two little-endian bytes each, then the value. */
  function Encoded(e: Entry): (r: seq<byte>) {
    LE(e.typ, 2) + LE(|e.raw|, 2) + e.raw
  }

  function Concat(es: seq<Entry>): (r: seq<byte>) {
    if |es| == 0 then [] else Encoded(es[0]) + Concat(es[1..])
  }

  /** Type zero is the uninitialized entry; lengths are 16 bits wide. */
  ghost predicate Proper(es: seq<Entry>) {
    forall i :: 0 <= i < |es| ==> es[i].typ != 0 && |es[i].raw| < 0x1_0000
  }

  /** The region starts with a whole entry of a non-zero type. */
  predicate StartsEntry(data: seq<byte>) {
    |data| >= 4 && LEValue(data[..2]) != 0 && 4 + LEValue(data[2..4]) <= |data|
  }

  function HeadEntry(data: seq<byte>): (e: Entry)
    requires StartsEntry(data)
    ensures 4 <= |Encoded(e)| <= |data|
  {
    Pow256Widths();
    Entry(LEValue(data[..2]), data[4..4 + LEValue(data[2..4])])
  }

  function Entries(data: seq<byte>): (es: seq<Entry>)
    decreases |data|
  {
    if StartsEntry(data) then [HeadEntry(data)] + Entries(data[|Encoded(HeadEntry(data))|..]) else []
  }

  /** What is left after the last whole entry: short, of type zero, or overrunning. */
  function Tail(data: seq<byte>): (tail: seq<byte>)
    decreases |data|
  {
    if StartsEntry(data) then Tail(data[|Encoded(HeadEntry(data))|..]) else data
  }

  lemma HeadStandsFirst(data: seq<byte>)
    requires StartsEntry(data)
    ensures var e := HeadEntry(data);
            && data == Encoded(e) + data[|Encoded(e)|..]
            && e.typ != 0 && |e.raw| < 0x1_0000
  {
    Pow256Widths();
    LEValueRoundTrip(data[..2]);
    LEValueRoundTrip(data[2..4]);
    assert data[..4] == data[..2] + data[2..4];
  }

  lemma HeadOfEncoded(e: Entry, rest: seq<byte>)
    requires e.typ != 0 && |e.raw| < 0x1_0000
    ensures StartsEntry(Encoded(e) + rest) && HeadEntry(Encoded(e) + rest) == e
  {
    Pow256Widths();
    var data := Encoded(e) + rest;
    LERoundTrip(e.typ, 2);
    LERoundTrip(|e.raw|, 2);
    assert data[..2] == LE(e.typ, 2);
    assert data[2..4] == LE(|e.raw|, 2);
    assert data[4..4 + |e.raw|] == e.raw;
  }

  lemma ConcatCons(e: Entry, es: seq<Entry>, tail: seq<byte>)
    ensures Concat([e] + es) + tail == Encoded(e) + (Concat(es) + tail)
    ensures Proper([e] + es) <==> e.typ != 0 && |e.raw| < 0x1_0000 && Proper(es)
  {
    hide Encoded;
    var all := [e] + es;
    assert all[1..] == es && all[0] == e;
    assert forall i :: 0 <= i < |es| ==> all[i + 1] == es[i];
  }

  /** Every region is the concatenation of its entries and a tail that starts no entry. */
  lemma {:induction false} RegionSplits(data: seq<byte>)
    ensures data == Concat(Entries(data)) + Tail(data) && Proper(Entries(data)) && !StartsEntry(Tail(data))
    decreases |data|
  {
    hide Encoded, StartsEntry, HeadEntry, LEValue, Pow256, Concat, Proper;
    if StartsEntry(data) {
      var e := HeadEntry(data);
      var rest := data[|Encoded(e)|..];
      HeadStandsFirst(data);
      RegionSplits(rest);
      ConcatCons(e, Entries(rest), Tail(rest));
    } else {
      NoEntries(data);
    }
  }

  lemma NoEntries(tail: seq<byte>)
    requires !StartsEntry(tail)
    ensures Entries(tail) == [] && Tail(tail) == tail && Concat([]) + tail == tail && Proper([])
  {
  }

  /** And only of those: parsing recovers exactly the entries and the tail that were put together. */
  lemma {:induction false} ConcatParses(es: seq<Entry>, tail: seq<byte>)
    requires Proper(es) && !StartsEntry(tail)
    ensures Entries(Concat(es) + tail) == es && Tail(Concat(es) + tail) == tail
  {
    hide Encoded, StartsEntry, HeadEntry, LEValue, Pow256, Concat, Proper;
    if |es| == 0 {
      NoEntries(tail);
    } else {
      var e, rest := es[0], Concat(es[1..]) + tail;
      assert es == [e] + es[1..];
      ConcatCons(e, es[1..], tail);
      HeadOfEncoded(e, rest);
      assert (Encoded(e) + rest)[|Encoded(e)|..] == rest;
      ConcatParses(es[1..], tail);
    }
  }

  /** A later entry of a type replaces an earlier one. */
  function LastWins(es: seq<Entry>): (r: map<u16, seq<byte>>) {
    if |es| == 0 then map[] else LastWins(es[..|es| - 1])[es[|es| - 1].typ := es[|es| - 1].raw]
  }

  lemma {:induction false} LastWinsExact(es: seq<Entry>, t: u16)
    ensures t in LastWins(es) <==> exists i :: 0 <= i < |es| && es[i].typ == t
    ensures forall i :: 0 <= i < |es| && es[i].typ == t && (forall j :: i < j < |es| ==> es[j].typ != t) ==>
              t in LastWins(es) && LastWins(es)[t] == es[i].raw
  {
    if |es| > 0 {
      var n := |es| - 1;
      LastWinsExact(es[..n], t);
      assert forall i :: 0 <= i < n ==> es[..n][i] == es[i];
    }
  }

  lemma EntriesStep(data: seq<byte>)
    ensures if StartsEntry(data) then
              && LEValue(data[..2]) < 0x1_0000
              && |Encoded(HeadEntry(data))| == 4 + LEValue(data[2..4])
              && Entries(data) == [HeadEntry(data)] + Entries(data[4 + LEValue(data[2..4])..])
            else Entries(data) == []
  {
    Pow256Widths();
  }

  method ParseTLV(region: seq<byte>) returns (result: map<u16, seq<byte>>)
    ensures result == LastWins(Entries(region))
  {
    hide Entries, LEValue, Pow256;
    var data := region;
    result := map[];
    ghost var done: seq<Entry> := [];
    while |data| >= 4
      invariant Entries(region) == done + Entries(data)
      invariant result == LastWins(done)
      decreases |data|
    {
      var extType, extLen := LEValue(data[0..2]), LEValue(data[2..4]);
      if extType == 0 || 4 + extLen > |data| {
        break;
      }
      ghost var e := HeadEntry(data);
      EntriesStep(data);
      assert done + ([e] + Entries(data[4 + extLen..])) == (done + [e]) + Entries(data[4 + extLen..]);
      assert (done + [e])[..|done|] == done;
      result := result[extType := data[4..4 + extLen]];
      data := data[4 + extLen..];
      done := done + [e];
    }
    EntriesStep(data);
    assert done + [] == done;
  }

  // ---------------------------------------------------------------- extensions

  datatype TransferFee = TransferFee(epoch: nat, maximumFee: nat, basisPoints: nat)
  datatype TransferFeeConfig = TransferFeeConfig(configAuthority: Option<PublicKey>,
                                                 withdrawAuthority: Option<PublicKey>,
                                                 withheldAmount: nat, older: TransferFee, newer: TransferFee)
  datatype InterestBearing = InterestBearing(rateAuthority: Option<PublicKey>, initialized: int, preUpdateRate: int,
                                             lastUpdate: int, currentRate: int)
  datatype TwoKeys = TwoKeys(authority: Option<PublicKey>, other: Option<PublicKey>)

  datatype MintExtensions = MintExtensions(
    closeAuthority: Option<PublicKey>, defaultState: Option<byte>, nonTransferable: bool,
    permanentDelegate: Option<PublicKey>, transferFeeConfig: Option<TransferFeeConfig>,
    interestBearing: Option<InterestBearing>, metadataPointer: Option<TwoKeys>, transferHook: Option<TwoKeys>)

  datatype AccountExtensions = AccountExtensions(
    withheldAmount: Option<nat>, memoTransfer: Option<bool>, immutableOwner: bool, cpiGuard: Option<bool>)

  const NO_MINT_EXTENSIONS := MintExtensions(None, None, false, None, None, None, None, None)
  const NO_ACCOUNT_EXTENSIONS := AccountExtensions(None, None, false, None)

  /** All zeros means no authority. */
  function OptPubkey(b: seq<byte>): (r: Option<PublicKey>) {
    if |b| < 32 || b[..32] == ZeroBytes(32) then None else Some(b[..32])
  }

  function Unsigned(b: seq<byte>, from: nat, to: nat): (r: nat)
    requires from <= to <= |b|
  {
    LEValue(b[from..to])
  }

  function Signed(b: seq<byte>, from: nat, to: nat): (r: int)
    requires from <= to <= |b|
  {
    GoTypes.Convert(LEValue(b[from..to]), to - from, true)
  }

  function FeeConfig(raw: seq<byte>): (r: TransferFeeConfig)
    requires |raw| >= 108
  {
    TransferFeeConfig(OptPubkey(raw[0..32]), OptPubkey(raw[32..64]), Unsigned(raw, 64, 72),
                      TransferFee(Unsigned(raw, 72, 80), Unsigned(raw, 80, 88), Unsigned(raw, 88, 90)),
                      TransferFee(Unsigned(raw, 90, 98), Unsigned(raw, 98, 106), Unsigned(raw, 106, 108)))
  }

  function Interest(raw: seq<byte>): (r: InterestBearing)
    requires |raw| >= 52
  {
    InterestBearing(OptPubkey(raw[0..32]), Signed(raw, 32, 40), Signed(raw, 40, 42), Signed(raw, 42, 50),
                    Signed(raw, 50, 52))
  }

  function Pair(raw: seq<byte>): (r: TwoKeys)
    requires |raw| >= 64
  {
    TwoKeys(OptPubkey(raw[0..32]), OptPubkey(raw[32..64]))
  }

  /** decodeMintExt: what one entry does to the extensions. */
  function WithMintExt(x: MintExtensions, t: u16, raw: seq<byte>): (r: MintExtensions) {
    match t
    case 3 => if |raw| >= 32 then x.(closeAuthority := OptPubkey(raw)) else x
    case 6 => if |raw| >= 1 then x.(defaultState := Some(raw[0])) else x
    case 9 => x.(nonTransferable := true)
    case 12 => if |raw| >= 32 then x.(permanentDelegate := OptPubkey(raw)) else x
    case 1 => if |raw| >= 108 then x.(transferFeeConfig := Some(FeeConfig(raw))) else x
    case 10 => if |raw| >= 52 then x.(interestBearing := Some(Interest(raw))) else x
    case 16 => if |raw| >= 64 then x.(metadataPointer := Some(Pair(raw))) else x
    case 18 => if |raw| >= 64 then x.(transferHook := Some(Pair(raw))) else x
    case _ => x
  }

  function WithAccountExt(x: AccountExtensions, t: u16, raw: seq<byte>): (r: AccountExtensions) {
    match t
    case 2 => if |raw| >= 8 then x.(withheldAmount := Some(Unsigned(raw, 0, 8))) else x
    case 8 => if |raw| >= 1 then x.(memoTransfer := Some(raw[0] != 0)) else x
    case 7 => x.(immutableOwner := true)
    case 11 => if |raw| >= 1 then x.(cpiGuard := Some(raw[0] != 0)) else x
    case _ => x
  }

  /** Each field from the one entry of its type, if there is one and it is long enough. */
  function MintFields(m: map<u16, seq<byte>>): (r: MintExtensions) {
    MintExtensions(
      if Has(m, 3, 32) then OptPubkey(m[3]) else None,
      if Has(m, 6, 1) then Some(m[6][0]) else None,
      9 in m,
      if Has(m, 12, 32) then OptPubkey(m[12]) else None,
      if Has(m, 1, 108) then Some(FeeConfig(m[1])) else None,
      if Has(m, 10, 52) then Some(Interest(m[10])) else None,
      if Has(m, 16, 64) then Some(Pair(m[16])) else None,
      if Has(m, 18, 64) then Some(Pair(m[18])) else None)
  }

  function AccountFields(m: map<u16, seq<byte>>): (r: AccountExtensions) {
    AccountExtensions(
      if Has(m, 2, 8) then Some(Unsigned(m[2], 0, 8)) else None,
      if Has(m, 8, 1) then Some(m[8][0] != 0) else None,
      7 in m,
      if Has(m, 11, 1) then Some(m[11][0] != 0) else None)
  }

  predicate Has(m: map<u16, seq<byte>>, t: u16, size: nat) {
    t in m && |m[t]| >= size
  }

  function Only(m: map<u16, seq<byte>>, done: set<u16>): (r: map<u16, seq<byte>>) {
    map t | t in m && t in done :: m[t]
  }

  /** One more entry, of a new type, does to the fields what decodeMintExt does. */
  lemma MintFieldsPlus(m: map<u16, seq<byte>>, t: u16, raw: seq<byte>)
    requires t !in m
    ensures MintFields(m[t := raw]) == WithMintExt(MintFields(m), t, raw)
  {
    hide OptPubkey, FeeConfig, Interest, Pair, Has;
    HasPlus(m, t, raw, 1, 108);
    HasPlus(m, t, raw, 3, 32);
    HasPlus(m, t, raw, 6, 1);
    HasPlus(m, t, raw, 10, 52);
    HasPlus(m, t, raw, 12, 32);
    HasPlus(m, t, raw, 16, 64);
    HasPlus(m, t, raw, 18, 64);
  }

  lemma HasPlus(m: map<u16, seq<byte>>, t: u16, raw: seq<byte>, k: u16, size: nat)
    ensures Has(m[t := raw], k, size) <==> if k == t then |raw| >= size else Has(m, k, size)
    ensures Has(m[t := raw], k, size) ==> k in m[t := raw] && |m[t := raw][k]| >= size
    ensures Has(m, k, size) ==> k in m && |m[k]| >= size
    ensures k != t && k in m ==> m[t := raw][k] == m[k]
  {
  }

  lemma AccountFieldsPlus(m: map<u16, seq<byte>>, t: u16, raw: seq<byte>)
    requires t !in m
    ensures AccountFields(m[t := raw]) == WithAccountExt(AccountFields(m), t, raw)
  {
    hide Unsigned;
  }

  lemma OnlyPlus(m: map<u16, seq<byte>>, done: set<u16>, t: u16)
    requires t in m && t !in done
    ensures Only(m, done + {t}) == Only(m, done)[t := m[t]] && t !in Only(m, done)
  {
  }

  /** Entries of different types do not interfere. */
  lemma MintExtsCommute(x: MintExtensions, t: u16, a: seq<byte>, u: u16, b: seq<byte>)
    requires t != u
    ensures WithMintExt(WithMintExt(x, t, a), u, b) == WithMintExt(WithMintExt(x, u, b), t, a)
  {
    hide OptPubkey, FeeConfig, Interest, Pair;
  }

  /** The extension struct that decodeMintExt assigns to. */
  class MintExt {
    var x: MintExtensions

    constructor ()
      ensures x == NO_MINT_EXTENSIONS
    {
      x := NO_MINT_EXTENSIONS;
    }

    method Decode(t: u16, raw: seq<byte>)
      modifies this
      ensures x == WithMintExt(old(x), t, raw)
    {
      match t {
        case 3 =>
          if |raw| >= 32 {
            x := x.(closeAuthority := OptPubkey(raw));
          }
        case 6 =>
          if |raw| >= 1 {
            x := x.(defaultState := Some(raw[0]));
          }
        case 9 =>
          x := x.(nonTransferable := true);
        case 12 =>
          if |raw| >= 32 {
            x := x.(permanentDelegate := OptPubkey(raw));
          }
        case 1 =>
          if |raw| >= 108 {
            x := x.(transferFeeConfig := Some(FeeConfig(raw)));
          }
        case 10 =>
          if |raw| >= 52 {
            x := x.(interestBearing := Some(Interest(raw)));
          }
        case 16 =>
          if |raw| >= 64 {
            x := x.(metadataPointer := Some(Pair(raw)));
          }
        case 18 =>
          if |raw| >= 64 {
            x := x.(transferHook := Some(Pair(raw)));
          }
        case _ =>
      }
    }
  }

  class AccountExt {
    var x: AccountExtensions

    constructor ()
      ensures x == NO_ACCOUNT_EXTENSIONS
    {
      x := NO_ACCOUNT_EXTENSIONS;
    }

    method Decode(t: u16, raw: seq<byte>)
      modifies this
      ensures x == WithAccountExt(old(x), t, raw)
    {
      match t {
        case 2 =>
          if |raw| >= 8 {
            x := x.(withheldAmount := Some(Unsigned(raw, 0, 8)));
          }
        case 8 =>
          if |raw| >= 1 {
            x := x.(memoTransfer := Some(raw[0] != 0));
          }
        case 7 =>
          x := x.(immutableOwner := true);
        case 11 =>
          if |raw| >= 1 {
            x := x.(cpiGuard := Some(raw[0] != 0));
          }
        case _ =>
      }
    }
  }

  lemma NoFields(m: map<u16, seq<byte>>)
    ensures MintFields(Only(m, {})) == NO_MINT_EXTENSIONS
    ensures AccountFields(Only(m, {})) == NO_ACCOUNT_EXTENSIONS
  {
  }

  /** Decodes every entry of the map, in an arbitrary order; the result does not depend on it. */
  method ApplyMintExts(m: map<u16, seq<byte>>) returns (x: MintExtensions)
    ensures x == MintFields(m)
  {
    hide WithMintExt, MintFields;
    var ext := new MintExt();
    var todo := m.Keys;
    ghost var done: set<u16> := {};
    NoFields(m);
    while todo != {}
      invariant done == m.Keys - todo && todo <= m.Keys
      invariant ext.x == MintFields(Only(m, done))
    {
      var t :| t in todo;
      OnlyPlus(m, done, t);
      MintFieldsPlus(Only(m, done), t, m[t]);
      ext.Decode(t, m[t]);
      todo, done := todo - {t}, done + {t};
    }
    assert done == m.Keys && Only(m, done) == m;
    x := ext.x;
  }

  /** The same for the extensions of an account. */
  method ApplyAccountExts(m: map<u16, seq<byte>>) returns (x: AccountExtensions)
    ensures x == AccountFields(m)
  {
    hide WithAccountExt, AccountFields;
    var ext := new AccountExt();
    var todo := m.Keys;
    ghost var done: set<u16> := {};
    NoFields(m);
    while todo != {}
      invariant done == m.Keys - todo && todo <= m.Keys
      invariant ext.x == AccountFields(Only(m, done))
    {
      var t :| t in todo;
      OnlyPlus(m, done, t);
      AccountFieldsPlus(Only(m, done), t, m[t]);
      ext.Decode(t, m[t]);
      todo, done := todo - {t}, done + {t};
    }
    assert done == m.Keys && Only(m, done) == m;
    x := ext.x;
  }

  /**
   A mint's base layout, decoded by decodeBase, and its extensions.
   */
  method DecodeMintState<B>(data: seq<byte>, decodeBase: seq<byte> -> Result<B>)
    returns (r: Result<(B, MintExtensions)>)
    ensures r == if |data| < 82 then Failure(ShortBuffer)
                 else match decodeBase(data[..82])
                      case Failure(e) => Failure(e)
                      case Success(b) =>
                        Success((b, MintFields(LastWins(if |data| > 166 then Entries(data[166..]) else []))))
  {
    if |data| < 82 {
      return Failure(ShortBuffer);
    }
    var base :- decodeBase(data[..82]);
    var m: map<u16, seq<byte>> := map[];
    if |data| > 166 {
      m := ParseTLV(data[166..]);
    }
    var x := ApplyMintExts(m);
    return Success((base, x));
  }

  method DecodeAccount<B>(data: seq<byte>, decodeBase: seq<byte> -> Result<B>)
    returns (r: Result<(B, AccountExtensions)>)
    ensures r == if |data| < 165 then Failure(ShortBuffer)
                 else match decodeBase(data[..165])
                      case Failure(e) => Failure(e)
                      case Success(b) =>
                        Success((b, AccountFields(LastWins(if |data| > 166 then Entries(data[166..]) else []))))
  {
    if |data| < 165 {
      return Failure(ShortBuffer);
    }
    var base :- decodeBase(data[..165]);
    var m: map<u16, seq<byte>> := map[];
    if |data| > 166 {
      m := ParseTLV(data[166..]);
    }
    var x := ApplyAccountExts(m);
    return Success((base, x));
  }
}

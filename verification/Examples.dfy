/**
 Concrete inputs on which the code does less than it promises. Each meets every precondition of the
 theorem it refutes the unconditional form of.
 */
module Examples {
  import opened Wire
  import opened Message
  import opened Ordering
  import opened StaticEntries
  import opened Builder
  import opened Resolution
  import opened Compilation
  import opened CompilerTheorems
  import opened Privileges
  import MessageCodec
  import TxCodec
  import Signing
  import GoTypes
  import Reflection
  import ReflectionLaws
  import DecodePlan
  import PlanExactness

  /** A key told apart by its first byte. */
  function Key(b: byte): (k: PublicKey)
    ensures k[0] == b
  {
    [b] + ZeroBytes(31)
  }

  // ---------------------------------------------------------------- codecs

  function Unsigned(version: byte, signers: byte): (r: Message) {
    Message(version, MessageHeader(signers, 0, 0), [], ZeroBytes(32), [], [], None)
  }

  lemma ManyLegacySignersDoNotReadBack()
    ensures MessageCodec.Marshal(Unsigned(VERSION_LEGACY, 128)).Success?
    ensures MessageCodec.Unmarshal(MessageCodec.Marshal(Unsigned(VERSION_LEGACY, 128)).value) !=
            Success(Unsigned(VERSION_LEGACY, 128))
  {
    MessageCodec.RoundTrip(Unsigned(VERSION_LEGACY, 128));
  }

  lemma A129thSignatureDoesNotReadBack()
    ensures var tx := TxCodec.Tx(Signing.EmptySlots(129), Unsigned(VERSION_0, 129));
            && TxCodec.MarshalTx(tx).Success?
            && TxCodec.UnmarshalTx(TxCodec.MarshalTx(tx).value) != Success(tx)
  {
    var tx := TxCodec.Tx(Signing.EmptySlots(129), Unsigned(VERSION_0, 129));
    assert TxCodec.MarshalTx(tx).Success?;
    TxCodec.TxRoundTrip(tx);
  }

  /** One required signer, and a call that names another: the call fails, and a slot has appeared. */
  lemma ARefusedSignGrowsTheSlots(sign: seq<byte> -> Option<TxCodec.Signature>)
    ensures var m := Unsigned(VERSION_LEGACY, 1).(accountKeys := [Key(0)]);
            Signing.SignOutcome([], m, [Signing.Signer(Key(1), sign)]) ==
            ([Signing.ZERO_SIGNATURE], Failure(UnknownSigner))
  {
    var keys, signers := [Key(0)], [Signing.Signer(Key(1), sign)];
    assert Signing.SlotOf(keys, 0, Key(1)).None?;
    assert Signing.SlotOf(keys, 1, signers[0].publicKey).None?;
    assert Signing.EmptySlots(1) == [Signing.ZERO_SIGNATURE] + Signing.EmptySlots(0);
    assert Signing.Grown([], 1) == [Signing.ZERO_SIGNATURE];
  }

  /** A slice of one empty struct, alone in the buffer. */
  lemma AnEmptyElementIsRefused(customs: Reflection.Unmarshalers)
    ensures var t, v := GoTypes.Slice(GoTypes.Struct([], 0)), GoTypes.List([GoTypes.List([])]);
            var enc := Reflection.Encode(t, v, false);
            && Reflection.Encodable(t, v, false)
            && Reflection.Decode(t, Reflection.Input(enc, false, customs), 0) != Ok(v, |enc|)
  {
    var e, x := GoTypes.Struct([], 0), GoTypes.List([]);
    var t, v := GoTypes.Slice(e), GoTypes.List([x]);
    Pow256Widths();
    assert Reflection.EncodableFields(e, [], 0, false) && Reflection.Encodable(e, x, false);
    assert Reflection.EncodableElems(e, [x], 0, false);
    assert Reflection.EncodableElems(e, [x], 1, false);
    assert !ReflectionLaws.TakesByte(e) && ReflectionLaws.Thick(e) && Reflection.NoCustom(e);
    var enc := Reflection.Encode(t, v, false);
    assert enc + [] == enc;
    ReflectionLaws.ZeroWidthSlices(e, [x], false, [], customs);
  }

  /** A Borsh byte string of one byte, decoded into a slice of a defined type of kind uint8. */
  lemma ADefinedByteSlicePanics(customs: Reflection.Unmarshalers, mem: seq<GoTypes.Cell>)
    ensures var t := GoTypes.Slice(GoTypes.Num(1, false, true));
            var inp := Reflection.Input(LE(1, 4) + [7], true, customs);
            && DecodePlan.Compile(t).Success?
            && var p := DecodePlan.Compile(t).value;
               DecodePlan.RunOps(p, |p.ops|, inp, mem, 0, 0) == Err(Panicked)
  {
    var inp := Reflection.Input(LE(1, 4) + [7], true, customs);
    Pow256Widths();
    AtWhole(LE(1, 4), [7]);
    Reflection.LenComplete(inp, 0, 1);
    PlanExactness.ByteSlicePanics(GoTypes.Num(1, false, true), inp, mem, 0, 0);
  }

  /** One element that decodes itself, and one element too many for a uint32. */
  lemma InexactArrays(id: nat)
    ensures var t := GoTypes.Array(1, GoTypes.Custom(id, 1, true));
            DecodePlan.Compile(t).Success? && !PlanExactness.Refines(t)
    ensures var t := GoTypes.Array(0x1_0000_0000, GoTypes.Num(1, false, false));
            DecodePlan.Compile(t).Success? && !PlanExactness.Refines(t)
  {
    hide PlanExactness.Refines;
    var c, b := GoTypes.Custom(id, 1, true), GoTypes.Num(1, false, false);
    DecodePlan.CompilesExactly(GoTypes.Array(1, c), 0);
    DecodePlan.CompilesExactly(GoTypes.Array(0x1_0000_0000, b), 0);
    PlanExactness.RefinesExactly(GoTypes.Array(1, c));
    PlanExactness.RefinesExactly(GoTypes.Array(0x1_0000_0000, b));
  }

  // ---------------------------------------------------------------- counting keys

  ghost function KeySet(ks: seq<PublicKey>): (r: set<PublicKey>) {
    set k | k in ks
  }

  lemma StaticKeysDistinct(ms: seq<Mention>)
    ensures Distinct(StaticKeys(ms)) && KeySet(StaticKeys(ms)) == KeySet(FirstSeen(ms))
    ensures |StaticKeys(ms)| == |KeySet(FirstSeen(ms))| == |FirstSeen(ms)|
  {
    forall i, j | 0 <= i < j < |StaticKeys(ms)| ensures StaticKeys(ms)[i] != StaticKeys(ms)[j] {
      StaticKeysOrdered(ms, i, j);
    }
    forall k ensures k in StaticKeys(ms) <==> k in FirstSeen(ms) {
      StaticKeysContents(ms, k);
    }
    hide StaticKeys, FirstSeen;
    DistinctSize(StaticKeys(ms), KeySet(FirstSeen(ms)));
    DistinctSize(FirstSeen(ms), KeySet(FirstSeen(ms)));
  }

  lemma {:induction false} FirstSeenShort(ms: seq<Mention>)
    ensures |FirstSeen(ms)| <= |ms|
  {
    if |ms| > 0 {
      FirstSeenShort(ms[..|ms| - 1]);
    }
  }

  // ---------------------------------------------------------------- a high slot

  function HighTable(): (r: LookupTable) {
    LookupTable(Key(1), HighAddresses(257))
  }

  function HighAddresses(n: nat): (ks: seq<PublicKey>)
    ensures |ks| == n && forall i :: 0 <= i < n ==> ks[i] == if i == 256 then Key(9) else Key(1)
  {
    if n == 0 then [] else HighAddresses(n - 1) + [if n == 257 then Key(9) else Key(1)]
  }

  /** One account, which stands only in slot 256 of the one table. */
  function HighSlotInstructions(): (r: seq<Option<Instruction>>) {
    [Some(Instruction(Key(2), [Some(AccountMeta(Key(9), false, false))], Some([])))]
  }

  lemma {:induction false} FirstAtEnd(xs: seq<PublicKey>, n: nat, k: PublicKey)
    requires n < |xs| && xs[n] == k && forall i :: 0 <= i < n ==> xs[i] != k
    ensures FirstIndex(xs, n + 1, k) == Some(n)
  {
    assert FirstIndex(xs, n, k).None?;
  }

  lemma HighSlotFound()
    ensures Find([HighTable()], Key(9)) == Some(TableSlot(0, 256))
    ensures Present(HighSlotInstructions())
  {
    var tables := [HighTable()];
    FirstAtEnd(HighTable().addresses, 256, Key(9));
    assert Locate(tables, 0, Key(9)).None?;
    assert Locate(tables, 1, Key(9)) == Some(TableSlot(0, 256));
  }

  lemma HighSlotRouted()
    ensures Present(HighSlotInstructions())
    ensures Routed(Key(0), HighSlotInstructions(), [HighTable()], Key(9))
    ensures !SlotsFit(Key(0), HighSlotInstructions(), [HighTable()])
  {
    var payer, ixs, tables := Key(0), HighSlotInstructions(), [HighTable()];
    HighSlotFound();
    var metas := ixs[0].value.accounts;
    assert Kept(metas, 0, KeepAll) == [];
    assert Kept(metas, 1, KeepAll) == [Mention(Key(9), false, false)];
    assert MetaMentions(ixs, 0, KeepAll) == [];
    assert MetaMentions(ixs, 1, KeepAll) == [Mention(Key(9), false, false)];
    assert ixs[0].value.accounts[0].value.publicKey == Key(9);
    assert Routed(payer, ixs, tables, Key(9));
  }

  lemma {:induction false} KeptShort(metas: seq<Option<AccountMeta>>, n: nat, keep: PublicKey -> bool)
    requires n <= |metas| && MetasPresent(metas)
    ensures |Kept(metas, n, keep)| <= n
  {
    if n > 0 {
      KeptShort(metas, n - 1, keep);
    }
  }

  lemma {:induction false} KeptKeys(metas: seq<Option<AccountMeta>>, n: nat, keep: PublicKey -> bool, only: PublicKey)
    requires n <= |metas| && MetasPresent(metas)
    requires forall j :: 0 <= j < n ==> metas[j].value.publicKey == only
    ensures forall k :: Mentioned(Kept(metas, n, keep), k) ==> k == only
  {
    if n > 0 {
      KeptKeys(metas, n - 1, keep, only);
      var meta := metas[n - 1].value;
      forall k ensures Mentioned(Kept(metas, n, keep), k) ==> k == only {
        MentionsSnoc(Kept(metas, n - 1, keep), Mention(meta.publicKey, meta.isSigner, meta.isWritable), k);
      }
    }
  }

  lemma OnlyTheHighSlot(ms: seq<Mention>, w: bool, s: nat)
    requires forall k :: Mentioned(ms, k) ==> k == Key(9)
    requires Supplies([HighTable()], ms, 0, s, w)
    ensures s == 256
  {
    assert HighTable().addresses[s] == Key(9);
    assert Key(1)[0] != Key(9)[0];
  }

  /** At most one slot of the table supplies anything. */
  lemma OneSlot(ms: seq<Mention>, w: bool)
    requires forall k :: Mentioned(ms, k) ==> k == Key(9)
    ensures |Supplied([HighTable()], ms, 1, w)| <= 1
  {
    hide Supplies, HighTable, Key, Slots, Mentioned;
    var tables := [HighTable()];
    var ss := Slots(tables, ms, 0, w);
    SlotsDistinct(tables, ms, 0, w);
    forall i | 0 <= i < |ss| ensures ss[i] == 256 {
      assert ss[i] in ss;
      SlotsExact(tables, ms, 0, w, ss[i]);
      OnlyTheHighSlot(ms, w, ss[i]);
    }
    var members := set s | s in ss;
    DistinctSize(ss, members);
    var one: set<nat> := {256};
    assert members <= one;
    SubsetSize(members, one);
    assert Sites(tables, ms, 0, w) == [];
    assert Sites(tables, ms, 1, w) == AtTable(0, ss);
    assert |KeysAt(tables, Sites(tables, ms, 1, w))| == |ss|;
  }

  lemma HighStaticsFew()
    ensures Present(HighSlotInstructions())
    ensures |Statics(Key(0), HighSlotInstructions(), [HighTable()])| <= 3
  {
    var payer, ixs, tables := Key(0), HighSlotInstructions(), [HighTable()];
    var stays := (k: PublicKey) => !Routed(payer, ixs, tables, k);
    KeptShort(ixs[0].value.accounts, 1, stays);
    hide Kept, Routed, HighTable, Key;
    assert |StaticMentions(payer, ixs, 0, stays)| == 1;
    assert |StaticMentions(payer, ixs, 1, stays)| <= 3;
  }

  lemma HighMovedOne()
    ensures Present(HighSlotInstructions())
    ensures forall k :: Mentioned(Moved(Key(0), HighSlotInstructions(), [HighTable()]), k) ==> k == Key(9)
  {
    var payer, ixs, tables := Key(0), HighSlotInstructions(), [HighTable()];
    var moves := (k: PublicKey) => Routed(payer, ixs, tables, k);
    KeptKeys(ixs[0].value.accounts, 1, moves, Key(9));
    hide Kept, Routed, HighTable, Key, Mentioned;
    assert MetaMentions(ixs, 0, moves) == [];
    assert MetaMentions(ixs, 1, moves) == [] + Kept(ixs[0].value.accounts, 1, moves);
    assert Moved(payer, ixs, tables) == Kept(ixs[0].value.accounts, 1, moves);
  }

  lemma HighSlotCompiles(blockhash: Hash)
    ensures V0Message(Key(0), HighSlotInstructions(), blockhash, [HighTable()]).Success?
  {
    hide Find, HighTable, StaticKeys, FirstSeen, Supplied, Statics, Moved, Mentioned, V0Message, Key;
    var payer, ixs, tables := Key(0), HighSlotInstructions(), [HighTable()];
    HighStaticsFew();
    HighMovedOne();
    StaticKeysDistinct(Statics(payer, ixs, tables));
    FirstSeenShort(Statics(payer, ixs, tables));
    OneSlot(Moved(payer, ixs, tables), true);
    OneSlot(Moved(payer, ixs, tables), false);
    V0SucceedsExactly(payer, ixs, blockhash, tables);
  }

  /** The message compiles, and resolves its one account to another key. */
  lemma AHighSlotIsMisrouted(blockhash: Hash)
    ensures var ixs, tables := HighSlotInstructions(), [HighTable()];
            var r, alts := V0Message(Key(0), ixs, blockhash, tables), map[Key(1) := HighTable().addresses];
            && Present(ixs) && r.Success? && Resolve(r.value, alts).Success?
            && !Faithful(r.value, Resolve(r.value, alts).value, ixs)
  {
    hide V0Message, Resolve, Faithful, SlotsFit;
    HighSlotCompiles(blockhash);
    HighSlotRouted();
    assert HighTable().accountKey == Key(1);
    CompilationIsFaithful(Key(0), HighSlotInstructions(), blockhash, [HighTable()],
                          map[Key(1) := HighTable().addresses]);
  }

  // ---------------------------------------------------------------- a program that is also an account

  /** The program is also a written account, and the one table lists it. */
  function DoubledInstructions(): (ixs: seq<Option<Instruction>>) {
    [Some(Instruction(Key(9), [Some(AccountMeta(Key(9), false, true))], Some([])))]
  }

  const DOUBLED_TABLES: seq<LookupTable> := [LookupTable(Key(1), [Key(9)])]

  lemma DoubledIsRouted()
    ensures Present(DoubledInstructions())
    ensures Doubled(Key(0), DoubledInstructions(), DOUBLED_TABLES, Key(9))
    ensures MustWrite(Key(0), DoubledInstructions(), Key(9))
  {
    var payer, ixs, tables := Key(0), DoubledInstructions(), DOUBLED_TABLES;
    FirstAtEnd(tables[0].addresses, 0, Key(9));
    assert Locate(tables, 0, Key(9)).None?;
    assert Locate(tables, 1, Key(9)) == Some(TableSlot(0, 0));
    var metas := ixs[0].value.accounts;
    assert Kept(metas, 0, KeepAll) == [];
    assert Kept(metas, 1, KeepAll) == [Mention(Key(9), false, true)];
    assert MetaMentions(ixs, 0, KeepAll) == [];
    assert MetaMentions(ixs, 1, KeepAll) == [Mention(Key(9), false, true)];
    assert ixs[0].value.programId == Key(9) && Key(0)[0] != Key(9)[0];
    assert IsProgram(ixs, 1, Key(9));
    var ms := MetaMentions(ixs, 1, KeepAll);
    assert ms[0].key == Key(9) && ms[0].writable && !ms[0].signer;
    assert Mentioned(ms, Key(9)) && Writes(ms, Key(9)) && !Signs(ms, Key(9));
    assert Routed(payer, ixs, tables, Key(9));
  }

  lemma DoubledCompiles(blockhash: Hash)
    ensures V0Message(Key(0), DoubledInstructions(), blockhash, DOUBLED_TABLES).Success?
  {
    hide Find, StaticKeys, FirstSeen, Supplies, Statics, Moved, Mentioned, V0Message, Key;
    var payer, ixs, tables := Key(0), DoubledInstructions(), DOUBLED_TABLES;
    DoubledStaticsFew();
    StaticKeysDistinct(Statics(payer, ixs, tables));
    FirstSeenShort(Statics(payer, ixs, tables));
    OneAddress(tables, Moved(payer, ixs, tables), true);
    OneAddress(tables, Moved(payer, ixs, tables), false);
    V0SucceedsExactly(payer, ixs, blockhash, tables);
  }

  lemma DoubledStaticsFew()
    ensures Present(DoubledInstructions())
    ensures |Statics(Key(0), DoubledInstructions(), DOUBLED_TABLES)| <= 3
  {
    var payer, ixs, tables := Key(0), DoubledInstructions(), DOUBLED_TABLES;
    var stays := (k: PublicKey) => !Routed(payer, ixs, tables, k);
    KeptShort(ixs[0].value.accounts, 1, stays);
    hide Kept, Routed, Key;
    assert |StaticMentions(payer, ixs, 0, stays)| == 1;
    assert |StaticMentions(payer, ixs, 1, stays)| <= 3;
  }

  lemma OneAddress(tables: seq<LookupTable>, ms: seq<Mention>, w: bool)
    requires |tables| == 1 && |tables[0].addresses| == 1
    ensures |Supplied(tables, ms, 1, w)| <= 1
  {
    hide Supplies;
    assert Sites(tables, ms, 0, w) == [];
    assert Sites(tables, ms, 1, w) == AtTable(0, Slots(tables, ms, 0, w));
  }

  /** The index space then holds the program twice, and one of its two indices grants it too little. */
  lemma AProgramAccountStandsTwice(blockhash: Hash)
    ensures var ixs, r := DoubledInstructions(), V0Message(Key(0), DoubledInstructions(), blockhash, DOUBLED_TABLES);
            && Present(ixs) && r.Success? && !Distinct(Space(Key(0), ixs, DOUBLED_TABLES))
            && var space := Space(Key(0), ixs, DOUBLED_TABLES);
               exists p :: 0 <= p < |space| && !Grants(r.value, Key(0), ixs, p, space[p])
  {
    hide V0Message, Space, Grants, Doubled, MustWrite, SignerSet, MustSign;
    var payer, ixs := Key(0), DoubledInstructions();
    DoubledCompiles(blockhash);
    DoubledIsRouted();
    SpaceRepeatsExactly(payer, ixs, DOUBLED_TABLES);
    DoubledSigners();
    EveryIndexExactly(payer, ixs, blockhash, DOUBLED_TABLES);
  }

  lemma DoubledSigners()
    ensures Present(DoubledInstructions()) && |SignerSet(Key(0), DoubledInstructions())| <= 255
  {
    var payer, ixs := Key(0), DoubledInstructions();
    var metas := ixs[0].value.accounts;
    assert Kept(metas, 0, KeepAll) == [];
    assert Kept(metas, 1, KeepAll) == [Mention(Key(9), false, true)];
    assert MetaMentions(ixs, 0, KeepAll) == [];
    assert MetaMentions(ixs, 1, KeepAll) == [Mention(Key(9), false, true)];
    assert SignerSet(payer, ixs) == {payer};
  }

  // ---------------------------------------------------------------- 256 signers

  function SignerMetas(n: nat): (metas: seq<Option<AccountMeta>>)
    requires n <= 256
    ensures |metas| == n && MetasPresent(metas)
    ensures forall j :: 0 <= j < n ==> metas[j].value == AccountMeta(Key(j), true, false)
  {
    seq(n, j requires 0 <= j < n => Some(AccountMeta(Key(j), true, false)))
  }

  /** One instruction that 256 accounts must sign. */
  function ManySigners(): (r: seq<Option<Instruction>>) {
    [Some(Instruction(Key(0), SignerMetas(256), Some([])))]
  }

  ghost function AllKeys(n: nat): (r: set<PublicKey>)
    requires n <= 256
  {
    set j: nat | j < n :: Key(j)
  }

  lemma {:induction false} AllKeysCounted(n: nat)
    requires n <= 256
    ensures |AllKeys(n)| == n
  {
    if n > 0 {
      AllKeysCounted(n - 1);
      assert Key(n - 1) !in AllKeys(n - 1) by {
        forall j: nat | j < n - 1 ensures Key(j) != Key(n - 1) {
          assert Key(j)[0] != Key(n - 1)[0];
        }
      }
      assert AllKeys(n) == AllKeys(n - 1) + {Key(n - 1)};
    }
  }

  lemma {:induction false} SignersMentioned(n: nat, k: PublicKey)
    requires n <= 256
    ensures var ms := Kept(SignerMetas(256), n, KeepAll);
            (Mentioned(ms, k) <==> k in AllKeys(n)) && (Signs(ms, k) <==> k in AllKeys(n))
  {
    hide Mentioned, Signs, SignerMetas, AllKeys, Key;
    if n == 0 {
      NobodyMentioned(k);
    } else {
      SignersMentioned(n - 1, k);
      MentionsSnoc(Kept(SignerMetas(256), n - 1, KeepAll), Mention(Key(n - 1), true, false), k);
      OneMoreKey(n);
    }
  }

  lemma NobodyMentioned(k: PublicKey)
    ensures !Mentioned([], k) && !Signs([], k) && AllKeys(0) == {}
  {
  }

  lemma OneMoreKey(n: nat)
    requires 0 < n <= 256
    ensures AllKeys(n) == AllKeys(n - 1) + {Key(n - 1)}
  {
    hide Key;
  }

  lemma ManySignersMustSign(k: PublicKey)
    ensures Present(ManySigners()) && (Signs(MetaMentions(ManySigners(), 1, KeepAll), k) <==> k in AllKeys(256))
    ensures Mentioned(MetaMentions(ManySigners(), 1, KeepAll), k) <==> k in AllKeys(256)
  {
    hide Kept, Mentioned, Signs, SignerMetas, AllKeys, Key;
    var ixs := ManySigners();
    SignersMentioned(256, k);
    assert MetaMentions(ixs, 0, KeepAll) == [];
    assert MetaMentions(ixs, 1, KeepAll) == [] + Kept(SignerMetas(256), 256, KeepAll);
    assert MetaMentions(ixs, 1, KeepAll) == Kept(SignerMetas(256), 256, KeepAll);
  }

  lemma ManySignersCounted()
    ensures Present(ManySigners()) && |SignerSet(Key(0), ManySigners())| == 256
  {
    var ixs := ManySigners();
    forall k ensures k in SignerSet(Key(0), ixs) <==> k in AllKeys(256) {
      ManySignersMustSign(k);
      SignerSetExact(Key(0), ixs, k);
      assert Key(0) in AllKeys(256);
    }
    AllKeysCounted(256);
    assert SignerSet(Key(0), ixs) == AllKeys(256);
  }

  lemma ManySignersFit()
    ensures Present(ManySigners()) && |Space(Key(0), ManySigners(), [])| <= 256
  {
    var payer, ixs := Key(0), ManySigners();
    var ms := Statics(payer, ixs, []);
    ManySignersMustSign(payer);
    forall k | k in FirstSeen(ms) ensures k in AllKeys(256) {
      ManySignersMustSign(k);
      StaticMentionsKept(payer, ixs, 1, (x: PublicKey) => !Routed(payer, ixs, [], x), k);
      assert Key(0) in AllKeys(256);
    }
    AllKeysCounted(256);
    assert KeySet(FirstSeen(ms)) <= AllKeys(256);
    hide FirstSeen, StaticKeys, AllKeys, Statics;
    SubsetSize(KeySet(FirstSeen(ms)), AllKeys(256));
    StaticKeysDistinct(ms);
  }

  lemma SubsetSize<T>(a: set<T>, b: set<T>)
    requires a <= b
    ensures |a| <= |b|
  {
    assert b == a + (b - a);
  }

  /** The message compiles, and its header grants not even the payer its signature. */
  lemma A256thSignerWrapsTheHeader(blockhash: Hash)
    ensures var r := V0Message(Key(0), ManySigners(), blockhash, []);
            Present(ManySigners()) && r.Success? && !PrivilegesExact(r.value, Key(0), ManySigners())
  {
    hide Space, SignerSet, V0Message, PrivilegesExact;
    ManySignersFit();
    ManySignersCounted();
    V0SucceedsExactly(Key(0), ManySigners(), blockhash, []);
    PrivilegesAreExact(Key(0), ManySigners(), blockhash, []);
  }
}

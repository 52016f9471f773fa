/**
 What the message builders of message_builder.go compile, stated over the accounts that the
 instructions mention: which keys are static, which are routed through lookup tables, and which
 index each key gets.
 */
module Builder {
  import opened Wire
  import opened Message
  import opened Ordering
  import opened StaticEntries

  datatype AccountMeta = AccountMeta(publicKey: PublicKey, isSigner: bool, isWritable: bool)

  /** data is None when the instruction cannot serialize itself; None metas are nil pointers. */
  datatype Instruction = Instruction(programId: PublicKey, accounts: seq<Option<AccountMeta>>, data: Option<seq<byte>>)

  datatype LookupTable = LookupTable(accountKey: PublicKey, addresses: seq<PublicKey>)

  predicate MetasPresent(metas: seq<Option<AccountMeta>>) {
    forall j :: 0 <= j < |metas| ==> metas[j].Some?
  }

  predicate Present(ixs: seq<Option<Instruction>>) {
    forall i :: 0 <= i < |ixs| ==> ixs[i].Some? && MetasPresent(ixs[i].value.accounts)
  }

  // ---------------------------------------------------------------- mentions

  /** The first n metas whose key is kept, in order. */
  function Kept(metas: seq<Option<AccountMeta>>, n: nat, keep: PublicKey -> bool): (r: seq<Mention>)
    requires n <= |metas| && MetasPresent(metas)
  {
    if n == 0 then []
    else
      var meta := metas[n - 1].value;
      Kept(metas, n - 1, keep)
      + if keep(meta.publicKey) then [Mention(meta.publicKey, meta.isSigner, meta.isWritable)] else []
  }

  /** The payer, then for each of the first n instructions its kept metas and its program. */
  function StaticMentions(payer: PublicKey, ixs: seq<Option<Instruction>>, n: nat, keep: PublicKey -> bool):
    (r: seq<Mention>)
    requires n <= |ixs| && Present(ixs)
  {
    if n == 0 then [Mention(payer, true, true)]
    else
      var ix := ixs[n - 1].value;
      StaticMentions(payer, ixs, n - 1, keep)
      + Kept(ix.accounts, |ix.accounts|, keep)
      + [Mention(ix.programId, false, false)]
  }

  /** The kept metas of the first n instructions, without payer and programs. */
  function MetaMentions(ixs: seq<Option<Instruction>>, n: nat, keep: PublicKey -> bool): (r: seq<Mention>)
    requires n <= |ixs| && Present(ixs)
  {
    if n == 0 then []
    else MetaMentions(ixs, n - 1, keep) + Kept(ixs[n - 1].value.accounts, |ixs[n - 1].value.accounts|, keep)
  }

  function KeepAll(k: PublicKey): (r: bool) {
    true
  }

  // ---------------------------------------------------------------- lookup tables

  datatype TableSlot = TableSlot(table: nat, slot: nat)

  /** The first of the first n positions that holds k. */
  function FirstIndex(xs: seq<PublicKey>, n: nat, k: PublicKey): (r: Option<nat>)
    requires n <= |xs|
    ensures r.Some? ==> r.value < n && xs[r.value] == k
    ensures r.None? ==> forall i :: 0 <= i < n ==> xs[i] != k
  {
    if n == 0 then None
    else
      var r := FirstIndex(xs, n - 1, k);
      if r.Some? then r else if xs[n - 1] == k then Some(n - 1) else None
  }

  /** The first matching slot of the first matching table wins. */
  function Locate(tables: seq<LookupTable>, n: nat, k: PublicKey): (r: Option<TableSlot>)
    requires n <= |tables|
    ensures r.Some? ==>
              && r.value.table < n && r.value.slot < |tables[r.value.table].addresses|
              && tables[r.value.table].addresses[r.value.slot] == k
  {
    if n == 0 then None
    else
      var r := Locate(tables, n - 1, k);
      if r.Some? then r
      else
        match FirstIndex(tables[n - 1].addresses, |tables[n - 1].addresses|, k)
        case Some(s) => Some(TableSlot(n - 1, s))
        case None => None
  }

  function Find(tables: seq<LookupTable>, k: PublicKey): (r: Option<TableSlot>) {
    Locate(tables, |tables|, k)
  }

  /** The keys that must be static: the payer and every key some meta requires to sign. */
  ghost predicate MustSign(payer: PublicKey, ixs: seq<Option<Instruction>>, k: PublicKey)
    requires Present(ixs)
  {
    k == payer || Signs(MetaMentions(ixs, |ixs|, KeepAll), k)
  }

  ghost predicate Routed(payer: PublicKey, ixs: seq<Option<Instruction>>, tables: seq<LookupTable>, k: PublicKey)
    requires Present(ixs)
  {
    Find(tables, k).Some? && !MustSign(payer, ixs, k)
  }

  /** The mentions that stay in the static key list. */
  ghost function Statics(payer: PublicKey, ixs: seq<Option<Instruction>>, tables: seq<LookupTable>): (r: seq<Mention>)
    requires Present(ixs)
  {
    StaticMentions(payer, ixs, |ixs|, (k: PublicKey) => !Routed(payer, ixs, tables, k))
  }

  /** The mentions that move into lookup tables. */
  ghost function Moved(payer: PublicKey, ixs: seq<Option<Instruction>>, tables: seq<LookupTable>): (r: seq<Mention>)
    requires Present(ixs)
  {
    MetaMentions(ixs, |ixs|, (k: PublicKey) => Routed(payer, ixs, tables, k))
  }

  /** Slot s of table t supplies a moved key, writable as w says. */
  ghost predicate Supplies(tables: seq<LookupTable>, ms: seq<Mention>, t: nat, s: nat, w: bool)
    requires t < |tables|
  {
    && s < |tables[t].addresses|
    && Find(tables, tables[t].addresses[s]) == Some(TableSlot(t, s))
    && Mentioned(ms, tables[t].addresses[s])
    && Writes(ms, tables[t].addresses[s]) == w
  }

  /** The slots that table t supplies, ascending. */
  ghost function Slots(tables: seq<LookupTable>, ms: seq<Mention>, t: nat, w: bool): (ss: seq<nat>)
    requires t < |tables|
    ensures forall i :: 0 <= i < |ss| ==> ss[i] < |tables[t].addresses|
  {
    var ss := Filter(Range(|tables[t].addresses|), s => Supplies(tables, ms, t, s, w));
    assert forall i :: 0 <= i < |ss| ==> ss[i] in ss;
    ss
  }

  predicate ValidSites(tables: seq<LookupTable>, sites: seq<TableSlot>) {
    forall i :: 0 <= i < |sites| ==>
      sites[i].table < |tables| && sites[i].slot < |tables[sites[i].table].addresses|
  }

  function AtTable(t: nat, ss: seq<nat>): (sites: seq<TableSlot>)
    ensures |sites| == |ss|
  {
    seq(|ss|, i requires 0 <= i < |ss| => TableSlot(t, ss[i]))
  }

  /** The slots supplied by the first n tables, table by table. */
  ghost function Sites(tables: seq<LookupTable>, ms: seq<Mention>, n: nat, w: bool): (sites: seq<TableSlot>)
    requires n <= |tables|
    ensures ValidSites(tables, sites)
  {
    if n == 0 then [] else Sites(tables, ms, n - 1, w) + AtTable(n - 1, Slots(tables, ms, n - 1, w))
  }

  function KeysAt(tables: seq<LookupTable>, sites: seq<TableSlot>): (ks: seq<PublicKey>)
    requires ValidSites(tables, sites)
    ensures |ks| == |sites|
  {
    seq(|sites|, i requires 0 <= i < |sites| => tables[sites[i].table].addresses[sites[i].slot])
  }

  /** The keys supplied by the first n tables. */
  ghost function Supplied(tables: seq<LookupTable>, ms: seq<Mention>, n: nat, w: bool): (r: seq<PublicKey>)
    requires n <= |tables|
  {
    KeysAt(tables, Sites(tables, ms, n, w))
  }

  // ---------------------------------------------------------------- indices

  /** Enter xs at positions base, base + 1, ...; a later position of a key replaces an earlier one. */
  function Enter(index: map<PublicKey, nat>, xs: seq<PublicKey>, base: nat): (r: map<PublicKey, nat>) {
    if |xs| == 0 then index
    else Enter(index, xs[..|xs| - 1], base)[xs[|xs| - 1] := base + |xs| - 1]
  }

  lemma {:induction false} EnterCat(index: map<PublicKey, nat>, xs: seq<PublicKey>, ys: seq<PublicKey>, base: nat)
    ensures Enter(index, xs + ys, base) == Enter(Enter(index, xs, base), ys, base + |xs|)
  {
    if |ys| == 0 {
      assert xs + ys == xs;
    } else {
      EnterCat(index, xs, ys[..|ys| - 1], base);
      assert (xs + ys)[..|xs + ys| - 1] == xs + ys[..|ys| - 1];
    }
  }

  /** Every key of xs gets an index at which xs holds it. */
  lemma {:induction false} EnterPoints(xs: seq<PublicKey>, k: PublicKey)
    ensures k in Enter(map[], xs, 0) <==> k in xs
    ensures k in xs ==> Enter(map[], xs, 0)[k] < |xs| && xs[Enter(map[], xs, 0)[k]] == k
  {
    if |xs| > 0 {
      var n := |xs| - 1;
      assert xs == xs[..n] + [xs[n]];
      EnterPoints(xs[..n], k);
    }
  }

  /** The instruction with its keys replaced by byte indices. */
  function CompileMetas(metas: seq<Option<AccountMeta>>, n: nat, index: map<PublicKey, nat>): (r: Result<seq<byte>>)
    requires n <= |metas| && MetasPresent(metas)
  {
    if n == 0 then Success([])
    else
      var idxs :- CompileMetas(metas, n - 1, index);
      var k := metas[n - 1].value.publicKey;
      if k in index then Success(idxs + [index[k] % 256]) else Failure(MissingKey)
  }

  function CompileOne(ix: Instruction, index: map<PublicKey, nat>): (r: Result<CompiledInstruction>)
    requires MetasPresent(ix.accounts)
  {
    if ix.programId !in index then Failure(MissingKey)
    else
      var idxs :- CompileMetas(ix.accounts, |ix.accounts|, index);
      if ix.data.None? then Failure(InstructionData)
      else Success(CompiledInstruction(index[ix.programId] % 256, idxs, ix.data.value))
  }

  function CompileAll(ixs: seq<Option<Instruction>>, n: nat, index: map<PublicKey, nat>):
    (r: Result<seq<CompiledInstruction>>)
    requires n <= |ixs| && Present(ixs)
  {
    if n == 0 then Success([])
    else
      var done :- CompileAll(ixs, n - 1, index);
      var one :- CompileOne(ixs[n - 1].value, index);
      Success(done + [one])
  }

  // ---------------------------------------------------------------- messages

  /** The first nil pointer met when scanning the instructions in order. */
  function FirstNil(ixs: seq<Option<Instruction>>, n: nat): (r: Option<Error>)
    requires n <= |ixs|
  {
    if n == 0 then None
    else
      var r := FirstNil(ixs, n - 1);
      if r.Some? then r
      else if ixs[n - 1].None? then Some(NilInstruction)
      else if !MetasPresent(ixs[n - 1].value.accounts) then Some(NilAccountMeta)
      else None
  }

  lemma {:induction false} NoNilIsPresent(ixs: seq<Option<Instruction>>, n: nat)
    requires n <= |ixs|
    ensures FirstNil(ixs, n).None? <==> Present(ixs[..n])
  {
    if n > 0 {
      NoNilIsPresent(ixs, n - 1);
      assert ixs[..n] == ixs[..n - 1] + [ixs[n - 1]];
    } else {
      assert ixs[..0] == [];
    }
  }

  ghost function LegacyMessage(payer: PublicKey, ixs: seq<Option<Instruction>>, blockhash: Hash): (r: Result<Message>) {
    if |ixs| == 0 then Failure(NoInstructions)
    else if FirstNil(ixs, |ixs|).Some? then Failure(FirstNil(ixs, |ixs|).value)
    else
      NoNilIsPresent(ixs, |ixs|);
      assert ixs[..|ixs|] == ixs;
      var ms := StaticMentions(payer, ixs, |ixs|, KeepAll);
      var keys := StaticKeys(ms);
      if |keys| > 256 then Failure(TooManyKeys)
      else
        match CompileAll(ixs, |ixs|, Enter(map[], keys, 0))
        case Failure(e) => Failure(e)
        case Success(compiled) => Success(Message(VERSION_LEGACY, HeaderOf(ms), keys, blockhash, compiled, [], None))
  }

  /** The whole index space: static keys, writable table keys, readonly table keys. */
  ghost function Space(payer: PublicKey, ixs: seq<Option<Instruction>>, tables: seq<LookupTable>): (r: seq<PublicKey>)
    requires Present(ixs)
  {
    var moved := Moved(payer, ixs, tables);
    StaticKeys(Statics(payer, ixs, tables))
    + Supplied(tables, moved, |tables|, true)
    + Supplied(tables, moved, |tables|, false)
  }

  /** Slots as they are written: truncated to a byte. */
  function SlotBytes(ss: seq<nat>): (bs: seq<byte>)
    ensures |bs| == |ss|
  {
    seq(|ss|, i requires 0 <= i < |ss| => ss[i] % 256)
  }

  /** One lookup for each of the first n tables that supplies anything. */
  ghost function Lookups(tables: seq<LookupTable>, ms: seq<Mention>, n: nat): (r: seq<AddressTableLookup>)
    requires n <= |tables|
  {
    if n == 0 then []
    else
      var w, r := Slots(tables, ms, n - 1, true), Slots(tables, ms, n - 1, false);
      Lookups(tables, ms, n - 1)
      + if w == [] && r == [] then []
        else [AddressTableLookup(tables[n - 1].accountKey, SlotBytes(w), SlotBytes(r))]
  }

  ghost function V0Message(payer: PublicKey, ixs: seq<Option<Instruction>>, blockhash: Hash, tables: seq<LookupTable>):
    (r: Result<Message>)
  {
    if |ixs| == 0 then Failure(NoInstructions)
    else if FirstNil(ixs, |ixs|).Some? then Failure(FirstNil(ixs, |ixs|).value)
    else
      NoNilIsPresent(ixs, |ixs|);
      assert ixs[..|ixs|] == ixs;
      var ms := Statics(payer, ixs, tables);
      var keys := StaticKeys(ms);
      if |keys| > 256 then Failure(TooManyKeys)
      else if |Space(payer, ixs, tables)| > 256 then Failure(TooManyKeys)
      else
        match CompileAll(ixs, |ixs|, Enter(map[], Space(payer, ixs, tables), 0))
        case Failure(e) => Failure(e)
        case Success(compiled) =>
          Success(Message(VERSION_0, HeaderOf(ms), keys, blockhash, compiled,
                          Lookups(tables, Moved(payer, ixs, tables), |tables|), None))
  }
}

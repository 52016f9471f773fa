/** The builders of message_builder.go, proved to compute what module Builder specifies. */
module MessageBuilder {
  import opened Wire
  import opened Message
  import opened Ordering
  import opened StaticEntries
  import opened Builder

  // ---------------------------------------------------------------- compileInstructions

  lemma {:induction false} CompileMetasFails(metas: seq<Option<AccountMeta>>, i: nat, n: nat,
                                             index: map<PublicKey, nat>)
    requires i <= n <= |metas| && MetasPresent(metas) && CompileMetas(metas, i, index).Failure?
    ensures CompileMetas(metas, n, index) == CompileMetas(metas, i, index)
  {
    if i < n {
      CompileMetasFails(metas, i, n - 1, index);
    }
  }

  lemma {:induction false} CompileAllFails(ixs: seq<Option<Instruction>>, i: nat, n: nat, index: map<PublicKey, nat>)
    requires i <= n <= |ixs| && Present(ixs) && CompileAll(ixs, i, index).Failure?
    ensures CompileAll(ixs, n, index) == CompileAll(ixs, i, index)
  {
    if i < n {
      CompileAllFails(ixs, i, n - 1, index);
    }
  }

  method CompileInstruction(ix: Instruction, index: map<PublicKey, nat>) returns (r: Result<CompiledInstruction>)
    requires MetasPresent(ix.accounts)
    ensures r == CompileOne(ix, index)
  {
    if ix.programId !in index {
      return Failure(MissingKey);
    }
    var idxs: seq<byte> := [];
    for j := 0 to |ix.accounts|
      invariant CompileMetas(ix.accounts, j, index) == Success(idxs)
    {
      var k := ix.accounts[j].value.publicKey;
      if k !in index {
        CompileMetasFails(ix.accounts, j + 1, |ix.accounts|, index);
        return Failure(MissingKey);
      }
      idxs := idxs + [index[k] % 256];
    }
    if ix.data.None? {
      return Failure(InstructionData);
    }
    return Success(CompiledInstruction(index[ix.programId] % 256, idxs, ix.data.value));
  }

  method CompileInstructions(ixs: seq<Option<Instruction>>, index: map<PublicKey, nat>)
    returns (r: Result<seq<CompiledInstruction>>)
    requires Present(ixs)
    ensures r == CompileAll(ixs, |ixs|, index)
  {
    var compiled: seq<CompiledInstruction> := [];
    for i := 0 to |ixs|
      invariant CompileAll(ixs, i, index) == Success(compiled)
    {
      var one := CompileInstruction(ixs[i].value, index);
      if one.Failure? {
        CompileAllFails(ixs, i + 1, |ixs|, index);
        return Failure(one.error);
      }
      compiled := compiled + [one.value];
    }
    return Success(compiled);
  }

  /** Enters keys into the index at base, base + 1, ... */
  method EnterKeys(index: map<PublicKey, nat>, keys: seq<PublicKey>, base: nat) returns (r: map<PublicKey, nat>)
    ensures r == Enter(index, keys, base)
  {
    r := index;
    for i := 0 to |keys|
      invariant r == Enter(index, keys[..i], base)
    {
      r := r[keys[i] := base + i];
      assert keys[..i + 1][..i] == keys[..i];
    }
    assert keys[..|keys|] == keys;
  }

  // ---------------------------------------------------------------- NewMessage

  lemma {:induction false} FirstNilStays(ixs: seq<Option<Instruction>>, i: nat, n: nat)
    requires i <= n <= |ixs| && FirstNil(ixs, i).Some?
    ensures FirstNil(ixs, n) == FirstNil(ixs, i)
  {
    if i < n {
      FirstNilStays(ixs, i, n - 1);
    }
  }

  /** Collects the accounts of one instruction, stopping at a nil pointer. */
  method CollectMetas(entries: Collector, metas: seq<Option<AccountMeta>>) returns (ok: bool)
    requires entries.Valid()
    modifies entries
    ensures entries.Valid() && ok == MetasPresent(metas)
    ensures ok ==> entries.mentions == old(entries.mentions) + Kept(metas, |metas|, KeepAll)
  {
    hide Represents;
    assert entries.mentions + [] == entries.mentions;
    for j := 0 to |metas|
      invariant entries.Valid() && MetasPresent(metas[..j])
      invariant MetasPresent(metas) ==> entries.mentions == old(entries.mentions) + Kept(metas, j, KeepAll)
    {
      if metas[j].None? {
        return false;
      }
      var meta := metas[j].value;
      entries.AddOrUpdate(meta.publicKey, meta.isSigner, meta.isWritable);
    }
    assert metas[..|metas|] == metas;
    return true;
  }

  /** Collects the payer, every account and every program, stopping at the first nil pointer. */
  method CollectAll(payer: PublicKey, ixs: seq<Option<Instruction>>) returns (r: Result<Collector>)
    ensures FirstNil(ixs, |ixs|).Some? ==> r == Failure(FirstNil(ixs, |ixs|).value)
    ensures FirstNil(ixs, |ixs|).None? ==>
              && Present(ixs) && r.Success? && fresh(r.value) && r.value.Valid()
              && r.value.mentions == StaticMentions(payer, ixs, |ixs|, KeepAll)
  {
    hide Represents, Kept;
    var entries := new Collector();
    entries.AddOrUpdate(payer, true, true);
    for i := 0 to |ixs|
      invariant fresh(entries) && entries.Valid() && FirstNil(ixs, i).None?
      invariant Present(ixs) ==> entries.mentions == StaticMentions(payer, ixs, i, KeepAll)
    {
      if ixs[i].None? {
        FirstNilStays(ixs, i + 1, |ixs|);
        return Failure(NilInstruction);
      }
      var ok := CollectMetas(entries, ixs[i].value.accounts);
      if !ok {
        FirstNilStays(ixs, i + 1, |ixs|);
        return Failure(NilAccountMeta);
      }
      entries.AddOrUpdate(ixs[i].value.programId, false, false);
    }
    NoNilIsPresent(ixs, |ixs|);
    assert ixs[..|ixs|] == ixs;
    return Success(entries);
  }

  method NewMessage(payer: PublicKey, ixs: seq<Option<Instruction>>, blockhash: Hash) returns (r: Result<Message>)
    ensures r == LegacyMessage(payer, ixs, blockhash)
  {
    if |ixs| == 0 {
      return Failure(NoInstructions);
    }
    var entries := CollectAll(payer, ixs);
    if entries.Failure? {
      return Failure(entries.error);
    }
    var keys, header := entries.value.BucketAndOrder();
    if |keys| > 256 {
      return Failure(TooManyKeys);
    }
    var index := EnterKeys(map[], keys, 0);
    var compiled :- CompileInstructions(ixs, index);
    return Success(Message(VERSION_LEGACY, header, keys, blockhash, compiled, [], None));
  }

  // ---------------------------------------------------------------- NewMessageV0

  /** The map from address to its first slot in its first table. */
  method IndexTables(tables: seq<LookupTable>) returns (index: map<PublicKey, TableSlot>)
    ensures forall k :: Find(tables, k) == if k in index then Some(index[k]) else None
  {
    index := map[];
    for t := 0 to |tables|
      invariant forall k :: Locate(tables, t, k) == if k in index then Some(index[k]) else None
    {
      var addresses := tables[t].addresses;
      for s := 0 to |addresses|
        invariant forall k :: (if k in index then Some(index[k]) else None) ==
                              var earlier := Locate(tables, t, k);
                              if earlier.Some? then earlier
                              else
                                match FirstIndex(addresses, s, k)
                                case Some(i) => Some(TableSlot(t, i))
                                case None => None
      {
        if addresses[s] !in index {
          index := index[addresses[s] := TableSlot(t, s)];
        }
      }
    }
  }

  lemma SignsStep(ms: seq<Mention>, m: Mention, signers: set<PublicKey>, all: set<PublicKey>)
    requires forall k :: k in all <==> k in signers || Signs(ms, k)
    ensures forall k :: k in (if m.signer then all + {m.key} else all) <==> k in signers || Signs(ms + [m], k)
  {
    forall k ensures Signs(ms + [m], k) <==> Signs(ms, k) || (m.key == k && m.signer) {
      MentionsSnoc(ms, m, k);
    }
    hide Signs;
  }

  lemma KeptNone(metas: seq<Option<AccountMeta>>, keep: PublicKey -> bool)
    requires MetasPresent(metas)
    ensures Kept(metas, 0, keep) == []
  {
  }

  lemma KeptStep(metas: seq<Option<AccountMeta>>, j: nat, keep: PublicKey -> bool)
    requires j < |metas| && MetasPresent(metas)
    ensures var meta := metas[j].value;
            var m := Mention(meta.publicKey, meta.isSigner, meta.isWritable);
            Kept(metas, j + 1, keep) == if keep(m.key) then Kept(metas, j, keep) + [m] else Kept(metas, j, keep)
  {
  }

  /** Adds the signers of one instruction; None at a nil pointer. */
  method CollectMetaSigners(signers: set<PublicKey>, metas: seq<Option<AccountMeta>>)
    returns (r: Option<set<PublicKey>>)
    ensures r.Some? == MetasPresent(metas)
    ensures r.Some? ==> forall k :: k in r.value <==> k in signers || Signs(Kept(metas, |metas|, KeepAll), k)
  {
    var all := signers;
    for j := 0 to |metas|
      invariant MetasPresent(metas[..j])
      invariant MetasPresent(metas) ==> forall k :: k in all <==> k in signers || Signs(Kept(metas, j, KeepAll), k)
    {
      if metas[j].None? {
        return None;
      }
      var meta := metas[j].value;
      if MetasPresent(metas) {
        KeptStep(metas, j, KeepAll);
        SignsStep(Kept(metas, j, KeepAll), Mention(meta.publicKey, meta.isSigner, meta.isWritable), signers, all);
      }
      hide Signs, Kept;
      if meta.isSigner {
        all := all + {meta.publicKey};
      }
      assert metas[..j + 1] == metas[..j] + [metas[j]];
    }
    assert metas[..|metas|] == metas;
    return Some(all);
  }

  /** The keys that must stay static because something requires their signature. */
  method CollectSigners(payer: PublicKey, ixs: seq<Option<Instruction>>) returns (r: Result<set<PublicKey>>)
    ensures FirstNil(ixs, |ixs|).Some? ==> r == Failure(FirstNil(ixs, |ixs|).value)
    ensures FirstNil(ixs, |ixs|).None? ==>
              Present(ixs) && r.Success? && forall k :: k in r.value <==> MustSign(payer, ixs, k)
  {
    var signers := {payer};
    for i := 0 to |ixs|
      invariant FirstNil(ixs, i).None?
      invariant Present(ixs) ==> forall k :: k in signers <==> k == payer || Signs(MetaMentions(ixs, i, KeepAll), k)
    {
      if ixs[i].None? {
        FirstNilStays(ixs, i + 1, |ixs|);
        return Failure(NilInstruction);
      }
      var metas := ixs[i].value.accounts;
      var more := CollectMetaSigners(signers, metas);
      if more.None? {
        FirstNilStays(ixs, i + 1, |ixs|);
        return Failure(NilAccountMeta);
      }
      forall k | Present(ixs)
        ensures Signs(MetaMentions(ixs, i + 1, KeepAll), k) <==>
                Signs(MetaMentions(ixs, i, KeepAll), k) || Signs(Kept(metas, |metas|, KeepAll), k)
      {
        MentionsCat(MetaMentions(ixs, i, KeepAll), Kept(metas, |metas|, KeepAll), k);
      }
      signers := more.value;
    }
    NoNilIsPresent(ixs, |ixs|);
    assert ixs[..|ixs|] == ixs;
    return Success(signers);
  }

  // ---------------------------------------------------------------- routing

  /** Slot s of table t is the home of a key that ms mentions. */
  ghost predicate Touched(tables: seq<LookupTable>, ms: seq<Mention>, t: nat, s: nat)
    requires t < |tables|
  {
    && s < |tables[t].addresses|
    && Find(tables, tables[t].addresses[s]) == Some(TableSlot(t, s))
    && Mentioned(ms, tables[t].addresses[s])
  }

  /** Each table's map holds the touched slots, each with its accumulated write role. */
  ghost predicate Tallied(tables: seq<LookupTable>, ms: seq<Mention>, tally: seq<map<nat, bool>>) {
    && |tally| == |tables|
    && forall t :: 0 <= t < |tally| ==> TalliedAt(tables, ms, t, tally[t])
  }

  ghost predicate TalliedAt(tables: seq<LookupTable>, ms: seq<Mention>, t: nat, slots: map<nat, bool>)
    requires t < |tables|
  {
    && (forall s :: s in slots <==> Touched(tables, ms, t, s))
    && forall s :: s in slots ==> slots[s] == Writes(ms, tables[t].addresses[s])
  }

  /** Write roles accumulate. */
  function Mark(slots: map<nat, bool>, s: nat, w: bool): (r: map<nat, bool>) {
    slots[s := (s in slots && slots[s]) || w]
  }

  lemma TallyStep(tables: seq<LookupTable>, ms: seq<Mention>, tally: seq<map<nat, bool>>, m: Mention, at: TableSlot)
    requires Tallied(tables, ms, tally) && Find(tables, m.key) == Some(at)
    ensures at.table < |tally|
    ensures Tallied(tables, ms + [m], tally[at.table := Mark(tally[at.table], at.slot, m.writable)])
  {
    assert at.table < |tally| && tables[at.table].addresses[at.slot] == m.key;
    var after := tally[at.table := Mark(tally[at.table], at.slot, m.writable)];
    forall t | 0 <= t < |tally| ensures TalliedAt(tables, ms + [m], t, after[t]) {
      hide Find, TalliedAt;
      TallyAtStep(tables, ms, t, tally[t], m, at);
    }
  }

  lemma TallyAtStep(tables: seq<LookupTable>, ms: seq<Mention>, t: nat, slots: map<nat, bool>, m: Mention,
                    at: TableSlot)
    requires t < |tables| && TalliedAt(tables, ms, t, slots) && Find(tables, m.key) == Some(at)
    ensures TalliedAt(tables, ms + [m], t, if t == at.table then Mark(slots, at.slot, m.writable) else slots)
  {
    assert at.table < |tables| && tables[at.table].addresses[at.slot] == m.key;
    forall k
      ensures Mentioned(ms + [m], k) <==> Mentioned(ms, k) || m.key == k
      ensures Writes(ms + [m], k) <==> Writes(ms, k) || (m.key == k && m.writable)
      ensures Writes(ms, k) ==> Mentioned(ms, k)
    {
      MentionsSnoc(ms, m, k);
      MentionedIfRole(ms, k);
    }
    hide Mentioned, Writes, Find;
  }

  /** Sends each account of an instruction to its table slot or to the static entries. */
  method RouteMetas(metas: seq<Option<AccountMeta>>, index: map<PublicKey, TableSlot>, signers: set<PublicKey>,
                    entries: Collector, tally: seq<map<nat, bool>>,
                    ghost tables: seq<LookupTable>, ghost ms: seq<Mention>,
                    ghost stays: PublicKey -> bool, ghost moves: PublicKey -> bool)
    returns (r: seq<map<nat, bool>>)
    requires MetasPresent(metas) && entries.Valid() && Tallied(tables, ms, tally)
    requires forall k :: k in index ==> Find(tables, k) == Some(index[k])
    requires forall k :: moves(k) == (k in index && k !in signers) && stays(k) == !moves(k)
    modifies entries
    ensures entries.Valid() && entries.mentions == old(entries.mentions) + Kept(metas, |metas|, stays)
    ensures Tallied(tables, ms + Kept(metas, |metas|, moves), r)
  {
    hide Kept, Tallied, Find, Represents;
    r := tally;
    KeptNone(metas, stays);
    KeptNone(metas, moves);
    assert ms + [] == ms && entries.mentions + [] == entries.mentions;
    for j := 0 to |metas|
      invariant entries.Valid() && entries.mentions == old(entries.mentions) + Kept(metas, j, stays)
      invariant Tallied(tables, ms + Kept(metas, j, moves), r)
    {
      var meta := metas[j].value;
      var k := meta.publicKey;
      ghost var m := Mention(k, meta.isSigner, meta.isWritable);
      KeptStep(metas, j, stays);
      KeptStep(metas, j, moves);
      if k in index && k !in signers {
        var at := index[k];
        TallyStep(tables, ms + Kept(metas, j, moves), r, m, at);
        assert ms + (Kept(metas, j, moves) + [m]) == ms + Kept(metas, j, moves) + [m];
        r := r[at.table := Mark(r[at.table], at.slot, meta.isWritable)];
      } else {
        assert old(entries.mentions) + (Kept(metas, j, stays) + [m]) == entries.mentions + [m];
        entries.AddOrUpdate(k, meta.isSigner, meta.isWritable);
      }
    }
  }

  /** Splits the accounts of all instructions between the static entries and the tables. */
  method Route(payer: PublicKey, ixs: seq<Option<Instruction>>, tables: seq<LookupTable>,
               index: map<PublicKey, TableSlot>, signers: set<PublicKey>)
    returns (entries: Collector, tally: seq<map<nat, bool>>)
    requires Present(ixs)
    requires forall k :: Find(tables, k) == if k in index then Some(index[k]) else None
    requires forall k :: k in signers <==> MustSign(payer, ixs, k)
    ensures fresh(entries) && entries.Valid() && entries.mentions == Statics(payer, ixs, tables)
    ensures Tallied(tables, Moved(payer, ixs, tables), tally)
  {
    ghost var stays := (k: PublicKey) => !Routed(payer, ixs, tables, k);
    ghost var moves := (k: PublicKey) => Routed(payer, ixs, tables, k);
    assert forall k :: moves(k) == (k in index && k !in signers) && stays(k) == !moves(k);
    assert forall k :: k in index ==> Find(tables, k) == Some(index[k]);
    hide Find, MustSign, Routed, Represents, Kept, Tallied;
    entries := new Collector();
    entries.AddOrUpdate(payer, true, true);
    tally := NoSlots(tables);
    for i := 0 to |ixs|
      invariant fresh(entries) && entries.Valid() && entries.mentions == StaticMentions(payer, ixs, i, stays)
      invariant Tallied(tables, MetaMentions(ixs, i, moves), tally)
    {
      var ix := ixs[i].value;
      tally := RouteMetas(ix.accounts, index, signers, entries, tally, tables, MetaMentions(ixs, i, moves), stays,
                          moves);
      entries.AddOrUpdate(ix.programId, false, false);
    }
  }

  method NoSlots(tables: seq<LookupTable>) returns (tally: seq<map<nat, bool>>)
    ensures Tallied(tables, [], tally)
  {
    tally := [];
    for t := 0 to |tables|
      invariant |tally| == t && forall u :: 0 <= u < t ==> tally[u] == map[]
    {
      tally := tally + [map[]];
    }
  }

  // ---------------------------------------------------------------- table slots

  /** The writable and the readonly slots of one table, each ascending. */
  datatype TableSlots = TableSlots(writable: seq<nat>, readonly: seq<nat>)

  /** Splits a table's slots by role, taking the map in an arbitrary order and then sorting. */
  method SplitSlots(slots: map<nat, bool>) returns (r: TableSlots)
    ensures Increasing(r.writable) && Increasing(r.readonly)
    ensures forall s :: s in r.writable <==> s in slots && slots[s]
    ensures forall s :: s in r.readonly <==> s in slots && !slots[s]
  {
    var w, ro := [], [];
    var todo := slots.Keys;
    while todo != {}
      invariant todo <= slots.Keys && Distinct(w) && Distinct(ro)
      invariant forall s :: s in w <==> s in slots && s !in todo && slots[s]
      invariant forall s :: s in ro <==> s in slots && s !in todo && !slots[s]
    {
      var s :| s in todo;
      if slots[s] {
        assert s !in w;
        w := w + [s];
      } else {
        assert s !in ro;
        ro := ro + [s];
      }
      todo := todo - {s};
    }
    w := SortBy(w, (s: nat) => s);
    ro := SortBy(ro, (s: nat) => s);
    return TableSlots(w, ro);
  }

  lemma IncreasingIsSlots(tables: seq<LookupTable>, ms: seq<Mention>, t: nat, w: bool, ss: seq<nat>)
    requires t < |tables| && Increasing(ss)
    requires forall s :: s in ss <==> Supplies(tables, ms, t, s, w)
    ensures ss == Slots(tables, ms, t, w)
  {
    var n := |tables[t].addresses|;
    var rank := map s: nat | s in Range(n) :: s;
    forall s: nat ensures s in ss <==> s in Range(n) && Supplies(tables, ms, t, s, w) {
      assert s < n ==> Range(n)[s] == s;
    }
    forall i | 0 <= i < |ss| ensures ss[i] in rank {
      assert ss[i] in ss;
    }
    hide Supplies;
    AscendingIsFilter(Range(n), rank, ss, s => Supplies(tables, ms, t, s, w));
  }

  lemma SplitIsSlots(tables: seq<LookupTable>, ms: seq<Mention>, t: nat, slots: map<nat, bool>, split: TableSlots)
    requires t < |tables| && TalliedAt(tables, ms, t, slots)
    requires Increasing(split.writable) && Increasing(split.readonly)
    requires forall s :: s in split.writable <==> s in slots && slots[s]
    requires forall s :: s in split.readonly <==> s in slots && !slots[s]
    ensures split == TableSlots(Slots(tables, ms, t, true), Slots(tables, ms, t, false))
    ensures slots == map[] <==> Slots(tables, ms, t, true) == [] && Slots(tables, ms, t, false) == []
  {
    assert forall s :: s in split.writable <==> Supplies(tables, ms, t, s, true);
    assert forall s :: s in split.readonly <==> Supplies(tables, ms, t, s, false);
    IncreasingIsSlots(tables, ms, t, true, split.writable);
    IncreasingIsSlots(tables, ms, t, false, split.readonly);
    hide TalliedAt, Supplies, Slots, Increasing;
    if slots != map[] {
      var s :| s in slots;
      assert s in split.writable || s in split.readonly;
    }
    if |split.writable| > 0 {
      assert split.writable[0] in split.writable;
    }
    if |split.readonly| > 0 {
      assert split.readonly[0] in split.readonly;
    }
  }

  /** Each table with the slots it supplies. */
  ghost predicate Splits(tables: seq<LookupTable>, ms: seq<Mention>, perTable: seq<TableSlots>) {
    && |perTable| == |tables|
    && forall t :: 0 <= t < |tables| ==>
         perTable[t] == TableSlots(Slots(tables, ms, t, true), Slots(tables, ms, t, false))
  }

  lemma SplitsAt(tables: seq<LookupTable>, ms: seq<Mention>, perTable: seq<TableSlots>)
    requires Splits(tables, ms, perTable)
    ensures |perTable| == |tables|
    ensures forall t :: 0 <= t < |tables| ==>
              perTable[t] == TableSlots(Slots(tables, ms, t, true), Slots(tables, ms, t, false))
  {
  }

  method SplitTables(tables: seq<LookupTable>, tally: seq<map<nat, bool>>, ghost ms: seq<Mention>)
    returns (perTable: seq<TableSlots>)
    requires Tallied(tables, ms, tally)
    ensures Splits(tables, ms, perTable)
    ensures forall t :: 0 <= t < |tables| ==>
              (tally[t] == map[] <==> Slots(tables, ms, t, true) == [] && Slots(tables, ms, t, false) == [])
  {
    hide TalliedAt, Slots;
    perTable := [];
    for t := 0 to |tables|
      invariant |perTable| == t
      invariant forall u :: 0 <= u < t ==>
                  perTable[u] == TableSlots(Slots(tables, ms, u, true), Slots(tables, ms, u, false))
      invariant forall u :: 0 <= u < t ==>
                  (tally[u] == map[] <==> Slots(tables, ms, u, true) == [] && Slots(tables, ms, u, false) == [])
    {
      var split := SplitSlots(tally[t]);
      SplitIsSlots(tables, ms, t, tally[t], split);
      perTable := perTable + [split];
    }
  }

  // ---------------------------------------------------------------- index and lookups

  lemma KeysAtCat(tables: seq<LookupTable>, a: seq<TableSlot>, b: seq<TableSlot>)
    requires ValidSites(tables, a) && ValidSites(tables, b)
    ensures ValidSites(tables, a + b) && KeysAt(tables, a + b) == KeysAt(tables, a) + KeysAt(tables, b)
  {
  }

  /** Enters the keys at the given slots of table t. */
  method EnterSlots(index: map<PublicKey, nat>, tables: seq<LookupTable>, t: nat, ss: seq<nat>, base: nat)
    returns (r: map<PublicKey, nat>)
    requires t < |tables| && forall i :: 0 <= i < |ss| ==> ss[i] < |tables[t].addresses|
    ensures r == Enter(index, KeysAt(tables, AtTable(t, ss)), base)
  {
    ghost var ks := KeysAt(tables, AtTable(t, ss));
    r := index;
    for i := 0 to |ss|
      invariant r == Enter(index, ks[..i], base)
    {
      r := r[tables[t].addresses[ss[i]] := base + i];
      assert ks[..i + 1][..i] == ks[..i];
    }
    assert ks[..|ss|] == ks;
  }

  lemma SuppliedStep(tables: seq<LookupTable>, ms: seq<Mention>, t: nat, w: bool)
    requires t < |tables|
    ensures Supplied(tables, ms, t + 1, w) ==
            Supplied(tables, ms, t, w) + KeysAt(tables, AtTable(t, Slots(tables, ms, t, w)))
  {
    hide Slots;
    KeysAtCat(tables, Sites(tables, ms, t, w), AtTable(t, Slots(tables, ms, t, w)));
  }

  /** index holds one side of the first n tables after the entries of before, up to position next. */
  ghost predicate Entered(before: map<PublicKey, nat>, base: nat, tables: seq<LookupTable>, ms: seq<Mention>, n: nat,
                          w: bool, index: map<PublicKey, nat>, next: nat)
    requires n <= |tables|
  {
    next == base + |Supplied(tables, ms, n, w)| && index == Enter(before, Supplied(tables, ms, n, w), base)
  }

  lemma EnteredNone(before: map<PublicKey, nat>, base: nat, tables: seq<LookupTable>, ms: seq<Mention>, w: bool)
    ensures Entered(before, base, tables, ms, 0, w, before, base)
  {
  }

  lemma EnteredStep(before: map<PublicKey, nat>, base: nat, tables: seq<LookupTable>, ms: seq<Mention>, t: nat,
                    w: bool, index: map<PublicKey, nat>, next: nat)
    requires t < |tables| && Entered(before, base, tables, ms, t, w, index, next)
    ensures var ss := Slots(tables, ms, t, w);
            Entered(before, base, tables, ms, t + 1, w, Enter(index, KeysAt(tables, AtTable(t, ss)), next), next + |ss|)
  {
    SuppliedStep(tables, ms, t, w);
    hide Slots, Supplied, Enter, KeysAt;
    EnterCat(before, Supplied(tables, ms, t, w), KeysAt(tables, AtTable(t, Slots(tables, ms, t, w))), base);
  }

  /** Enters one side of every table, table by table. */
  method EnterSide(index: map<PublicKey, nat>, tables: seq<LookupTable>, perTable: seq<TableSlots>, w: bool, base: nat,
                   ghost ms: seq<Mention>)
    returns (r: map<PublicKey, nat>, next: nat)
    requires Splits(tables, ms, perTable)
    ensures Entered(index, base, tables, ms, |tables|, w, r, next)
  {
    hide *;
    SplitsAt(tables, ms, perTable);
    EnteredNone(index, base, tables, ms, w);
    r, next := index, base;
    for t := 0 to |tables|
      invariant Entered(index, base, tables, ms, t, w, r, next)
    {
      EnteredStep(index, base, tables, ms, t, w, r, next);
      var ss := if w then perTable[t].writable else perTable[t].readonly;
      r := EnterSlots(r, tables, t, ss, next);
      next := next + |ss|;
    }
  }

  /** Truncates slots to bytes. */
  method TruncateSlots(ss: seq<nat>) returns (bs: seq<byte>)
    ensures bs == SlotBytes(ss)
  {
    bs := [];
    for i := 0 to |ss|
      invariant |bs| == i && forall j :: 0 <= j < i ==> bs[j] == ss[j] % 256
    {
      bs := bs + [ss[i] % 256];
    }
  }

  method EmitLookups(tables: seq<LookupTable>, tally: seq<map<nat, bool>>, perTable: seq<TableSlots>,
                     ghost ms: seq<Mention>)
    returns (lookups: seq<AddressTableLookup>)
    requires Splits(tables, ms, perTable) && |tally| == |tables|
    requires forall t :: 0 <= t < |tables| ==>
              (tally[t] == map[] <==> Slots(tables, ms, t, true) == [] && Slots(tables, ms, t, false) == [])
    ensures lookups == Lookups(tables, ms, |tables|)
  {
    hide Slots, SlotBytes;
    lookups := [];
    for t := 0 to |tables|
      invariant lookups == Lookups(tables, ms, t)
    {
      if tally[t] != map[] {
        var w := TruncateSlots(perTable[t].writable);
        var r := TruncateSlots(perTable[t].readonly);
        lookups := lookups + [AddressTableLookup(tables[t].accountKey, w, r)];
      }
    }
  }

  /** The outcome for well-formed instructions, case by case. */
  lemma V0Cases(payer: PublicKey, ixs: seq<Option<Instruction>>, blockhash: Hash, tables: seq<LookupTable>)
    requires |ixs| > 0 && FirstNil(ixs, |ixs|).None? && Present(ixs)
    ensures var ms := Statics(payer, ixs, tables);
            var moved := Moved(payer, ixs, tables);
            var w, ro := Supplied(tables, moved, |tables|, true), Supplied(tables, moved, |tables|, false);
            V0Message(payer, ixs, blockhash, tables) ==
            if |StaticKeys(ms)| > 256 || |StaticKeys(ms)| + |w| + |ro| > 256 then Failure(TooManyKeys)
            else
              match CompileAll(ixs, |ixs|, Enter(map[], StaticKeys(ms) + w + ro, 0))
              case Failure(e) => Failure(e)
              case Success(compiled) =>
                Success(Message(VERSION_0, HeaderOf(ms), StaticKeys(ms), blockhash, compiled,
                                Lookups(tables, moved, |tables|), None))
  {
    hide StaticKeys, Statics, Moved, Supplied, CompileAll, Enter, HeaderOf, Lookups, FirstNil;
  }

  lemma EnteredBoth(keys: seq<PublicKey>, tables: seq<LookupTable>, ms: seq<Mention>,
                    middle: map<PublicKey, nat>, at: nat, index: map<PublicKey, nat>, next: nat)
    requires Entered(Enter(map[], keys, 0), |keys|, tables, ms, |tables|, true, middle, at)
    requires Entered(middle, at, tables, ms, |tables|, false, index, next)
    ensures var w, ro := Supplied(tables, ms, |tables|, true), Supplied(tables, ms, |tables|, false);
            index == Enter(map[], keys + w + ro, 0) && next == |keys| + |w| + |ro|
  {
    var w, ro := Supplied(tables, ms, |tables|, true), Supplied(tables, ms, |tables|, false);
    hide *;
    EnterThree(keys, w, ro, middle, at, index, next);
  }

  lemma EnterThree(a: seq<PublicKey>, b: seq<PublicKey>, c: seq<PublicKey>,
                   middle: map<PublicKey, nat>, at: nat, index: map<PublicKey, nat>, next: nat)
    requires at == |a| + |b| && middle == Enter(Enter(map[], a, 0), b, |a|)
    requires next == at + |c| && index == Enter(middle, c, at)
    ensures index == Enter(map[], a + b + c, 0) && next == |a| + |b| + |c|
  {
    hide *;
    var ab := a + b;
    assert middle == Enter(map[], ab, 0) by {
      EnterCat(map[], a, b, 0);
    }
    assert at == |ab|;
    assert index == Enter(map[], ab + c, 0) by {
      EnterCat(map[], ab, c, 0);
    }
  }

  /** Indexes static keys, then all writable, then all readonly table keys. */
  method IndexAll(keys: seq<PublicKey>, tables: seq<LookupTable>, perTable: seq<TableSlots>, ghost ms: seq<Mention>)
    returns (index: map<PublicKey, nat>, next: nat)
    requires Splits(tables, ms, perTable)
    ensures var w, ro := Supplied(tables, ms, |tables|, true), Supplied(tables, ms, |tables|, false);
            index == Enter(map[], keys + w + ro, 0) && next == |keys| + |w| + |ro|
  {
    hide *;
    var fixed := EnterKeys(map[], keys, 0);
    var middle, at := EnterSide(fixed, tables, perTable, true, |keys|, ms);
    index, next := EnterSide(middle, tables, perTable, false, at, ms);
    EnteredBoth(keys, tables, ms, middle, at, index, next);
  }

  method NewMessageV0(payer: PublicKey, ixs: seq<Option<Instruction>>, blockhash: Hash, tables: seq<LookupTable>)
    returns (r: Result<Message>)
    ensures r == V0Message(payer, ixs, blockhash, tables)
  {
    if |ixs| == 0 {
      return Failure(NoInstructions);
    }
    var tableIndex := IndexTables(tables);
    var signers := CollectSigners(payer, ixs);
    if signers.Failure? {
      return Failure(signers.error);
    }
    V0Cases(payer, ixs, blockhash, tables);
    hide *;
    var entries, tally := Route(payer, ixs, tables, tableIndex, signers.value);
    var keys, header := entries.BucketAndOrder();
    if |keys| > 256 {
      return Failure(TooManyKeys);
    }
    var perTable := SplitTables(tables, tally, Moved(payer, ixs, tables));
    var index, next := IndexAll(keys, tables, perTable, Moved(payer, ixs, tables));
    if next > 256 {
      return Failure(TooManyKeys);
    }
    var lookups := EmitLookups(tables, tally, perTable, Moved(payer, ixs, tables));
    var compiled :- CompileInstructions(ixs, index);
    return Success(Message(VERSION_0, header, keys, blockhash, compiled, lookups, None));
  }
}

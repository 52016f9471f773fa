/**
 The message compiler is correct: the index space it lays out resolves every compiled instruction to
 the accounts, program and data it was built from, and grants exactly the privileges asked for.
 */
module Compilation {
  import opened Wire
  import opened Message
  import opened Ordering
  import opened StaticEntries
  import opened Builder
  import opened Resolution

  // ---------------------------------------------------------------- compiled instructions

  /** Compiling succeeds on every key of the index, and writes the index of each meta. */
  lemma {:induction false} CompileMetasExact(metas: seq<Option<AccountMeta>>, n: nat, index: map<PublicKey, nat>)
    requires n <= |metas| && MetasPresent(metas)
    requires forall j :: 0 <= j < n ==> metas[j].value.publicKey in index
    ensures CompileMetas(metas, n, index).Success?
    ensures var idxs := CompileMetas(metas, n, index).value;
            |idxs| == n && forall j :: 0 <= j < n ==> idxs[j] == index[metas[j].value.publicKey] % 256
  {
    if n > 0 {
      CompileMetasExact(metas, n - 1, index);
    }
  }

  ghost predicate KeysIndexed(ix: Instruction, index: map<PublicKey, nat>)
    requires MetasPresent(ix.accounts)
  {
    ix.programId in index && forall j :: 0 <= j < |ix.accounts| ==> ix.accounts[j].value.publicKey in index
  }

  ghost predicate Compiles(ix: Instruction, index: map<PublicKey, nat>, c: CompiledInstruction)
    requires MetasPresent(ix.accounts) && KeysIndexed(ix, index)
  {
    && ix.data == Some(c.data)
    && c.programIdIndex == index[ix.programId] % 256
    && |c.accounts| == |ix.accounts|
    && forall j :: 0 <= j < |c.accounts| ==> c.accounts[j] == index[ix.accounts[j].value.publicKey] % 256
  }

  lemma {:induction false} CompileAllExact(ixs: seq<Option<Instruction>>, n: nat, index: map<PublicKey, nat>)
    requires n <= |ixs| && Present(ixs)
    requires forall i :: 0 <= i < n ==> KeysIndexed(ixs[i].value, index)
    ensures CompileAll(ixs, n, index).Success? <==> forall i :: 0 <= i < n ==> ixs[i].value.data.Some?
    ensures CompileAll(ixs, n, index).Success? ==>
              var cs := CompileAll(ixs, n, index).value;
              |cs| == n && forall i :: 0 <= i < n ==> Compiles(ixs[i].value, index, cs[i])
  {
    if n > 0 {
      CompileAllExact(ixs, n - 1, index);
      var ix := ixs[n - 1].value;
      CompileMetasExact(ix.accounts, |ix.accounts|, index);
    }
  }

  // ---------------------------------------------------------------- mentions

  lemma {:induction false} KeptMentions(metas: seq<Option<AccountMeta>>, n: nat, keep: PublicKey -> bool, k: PublicKey)
    requires n <= |metas| && MetasPresent(metas)
    ensures Mentioned(Kept(metas, n, keep), k) <==> keep(k) && Mentioned(Kept(metas, n, KeepAll), k)
    ensures Signs(Kept(metas, n, keep), k) <==> keep(k) && Signs(Kept(metas, n, KeepAll), k)
    ensures Writes(Kept(metas, n, keep), k) <==> keep(k) && Writes(Kept(metas, n, KeepAll), k)
  {
    if n > 0 {
      KeptMentions(metas, n - 1, keep, k);
      var meta := metas[n - 1].value;
      var m := Mention(meta.publicKey, meta.isSigner, meta.isWritable);
      MentionsSnoc(Kept(metas, n - 1, keep), m, k);
      MentionsSnoc(Kept(metas, n - 1, KeepAll), m, k);
      assert Kept(metas, n - 1, keep) + [] == Kept(metas, n - 1, keep);
    }
  }

  lemma {:induction false} MetaMentionsKept(ixs: seq<Option<Instruction>>, n: nat, keep: PublicKey -> bool,
                                            k: PublicKey)
    requires n <= |ixs| && Present(ixs)
    ensures Mentioned(MetaMentions(ixs, n, keep), k) <==> keep(k) && Mentioned(MetaMentions(ixs, n, KeepAll), k)
    ensures Signs(MetaMentions(ixs, n, keep), k) <==> keep(k) && Signs(MetaMentions(ixs, n, KeepAll), k)
    ensures Writes(MetaMentions(ixs, n, keep), k) <==> keep(k) && Writes(MetaMentions(ixs, n, KeepAll), k)
  {
    if n > 0 {
      MetaMentionsKept(ixs, n - 1, keep, k);
      var metas := ixs[n - 1].value.accounts;
      KeptMentions(metas, |metas|, keep, k);
      MentionsCat(MetaMentions(ixs, n - 1, keep), Kept(metas, |metas|, keep), k);
      MentionsCat(MetaMentions(ixs, n - 1, KeepAll), Kept(metas, |metas|, KeepAll), k);
    }
  }

  ghost predicate IsProgram(ixs: seq<Option<Instruction>>, n: nat, k: PublicKey)
    requires n <= |ixs| && Present(ixs)
  {
    exists i :: 0 <= i < n && ixs[i].value.programId == k
  }

  lemma {:induction false} StaticMentionsKept(payer: PublicKey, ixs: seq<Option<Instruction>>, n: nat,
                                              keep: PublicKey -> bool, k: PublicKey)
    requires n <= |ixs| && Present(ixs)
    ensures var ms, all := StaticMentions(payer, ixs, n, keep), MetaMentions(ixs, n, KeepAll);
            && (Mentioned(ms, k) <==> k == payer || (keep(k) && Mentioned(all, k)) || IsProgram(ixs, n, k))
            && (Signs(ms, k) <==> k == payer || (keep(k) && Signs(all, k)))
            && (Writes(ms, k) <==> k == payer || (keep(k) && Writes(all, k)))
  {
    hide Mentioned, Signs, Writes, Kept, IsProgram;
    if n == 0 {
      PayerOnly(payer, ixs, keep, k);
    } else {
      StaticMentionsKept(payer, ixs, n - 1, keep, k);
      ProgramStep(ixs, n, k);
      var ix := ixs[n - 1].value;
      var kept := Kept(ix.accounts, |ix.accounts|, keep);
      KeptMentions(ix.accounts, |ix.accounts|, keep, k);
      MentionsCat(StaticMentions(payer, ixs, n - 1, keep), kept, k);
      MentionsCat(MetaMentions(ixs, n - 1, KeepAll), Kept(ix.accounts, |ix.accounts|, KeepAll), k);
      MentionsSnoc(StaticMentions(payer, ixs, n - 1, keep) + kept, Mention(ix.programId, false, false), k);
    }
  }

  lemma PayerOnly(payer: PublicKey, ixs: seq<Option<Instruction>>, keep: PublicKey -> bool, k: PublicKey)
    requires Present(ixs)
    ensures var ms, all := StaticMentions(payer, ixs, 0, keep), MetaMentions(ixs, 0, KeepAll);
            && (Mentioned(ms, k) <==> k == payer) && (Signs(ms, k) <==> k == payer) && (Writes(ms, k) <==> k == payer)
            && !Mentioned(all, k) && !Signs(all, k) && !Writes(all, k) && !IsProgram(ixs, 0, k)
  {
    var ms := StaticMentions(payer, ixs, 0, keep);
    assert ms[0] == Mention(payer, true, true);
  }

  lemma ProgramStep(ixs: seq<Option<Instruction>>, n: nat, k: PublicKey)
    requires 0 < n <= |ixs| && Present(ixs)
    ensures IsProgram(ixs, n, k) <==> IsProgram(ixs, n - 1, k) || ixs[n - 1].value.programId == k
  {
  }

  lemma {:induction false} KeptMember(metas: seq<Option<AccountMeta>>, n: nat, j: nat)
    requires j < n <= |metas| && MetasPresent(metas)
    ensures Mentioned(Kept(metas, n, KeepAll), metas[j].value.publicKey)
  {
    var k := metas[j].value.publicKey;
    var meta := metas[n - 1].value;
    MentionsSnoc(Kept(metas, n - 1, KeepAll), Mention(meta.publicKey, meta.isSigner, meta.isWritable), k);
    if j < n - 1 {
      KeptMember(metas, n - 1, j);
    }
  }

  lemma {:induction false} MetaMember(ixs: seq<Option<Instruction>>, n: nat, i: nat, j: nat)
    requires i < n <= |ixs| && Present(ixs) && j < |ixs[i].value.accounts|
    ensures Mentioned(MetaMentions(ixs, n, KeepAll), ixs[i].value.accounts[j].value.publicKey)
  {
    var k := ixs[i].value.accounts[j].value.publicKey;
    var metas := ixs[n - 1].value.accounts;
    MentionsCat(MetaMentions(ixs, n - 1, KeepAll), Kept(metas, |metas|, KeepAll), k);
    if i < n - 1 {
      MetaMember(ixs, n - 1, i, j);
    } else {
      KeptMember(metas, |metas|, j);
    }
  }

  lemma {:induction false} KeptOrigin(metas: seq<Option<AccountMeta>>, n: nat, k: PublicKey) returns (j: nat)
    requires n <= |metas| && MetasPresent(metas) && Mentioned(Kept(metas, n, KeepAll), k)
    ensures j < n && metas[j].value.publicKey == k
  {
    var meta := metas[n - 1].value;
    MentionsSnoc(Kept(metas, n - 1, KeepAll), Mention(meta.publicKey, meta.isSigner, meta.isWritable), k);
    if meta.publicKey == k {
      j := n - 1;
    } else {
      j := KeptOrigin(metas, n - 1, k);
    }
  }

  /** A mentioned key is the key of some meta. */
  lemma {:induction false} MetaOrigin(ixs: seq<Option<Instruction>>, n: nat, k: PublicKey) returns (i: nat, j: nat)
    requires n <= |ixs| && Present(ixs) && Mentioned(MetaMentions(ixs, n, KeepAll), k)
    ensures i < n && j < |ixs[i].value.accounts| && ixs[i].value.accounts[j].value.publicKey == k
  {
    var metas := ixs[n - 1].value.accounts;
    MentionsCat(MetaMentions(ixs, n - 1, KeepAll), Kept(metas, |metas|, KeepAll), k);
    if Mentioned(Kept(metas, |metas|, KeepAll), k) {
      i := n - 1;
      j := KeptOrigin(metas, |metas|, k);
    } else {
      i, j := MetaOrigin(ixs, n - 1, k);
    }
  }

  // ---------------------------------------------------------------- the index space

  lemma {:induction false} SitesExact(tables: seq<LookupTable>, ms: seq<Mention>, n: nat, w: bool, site: TableSlot)
    requires n <= |tables|
    ensures site in Sites(tables, ms, n, w) <==> site.table < n && Supplies(tables, ms, site.table, site.slot, w)
  {
    if n > 0 {
      SitesExact(tables, ms, n - 1, w, site);
      hide Supplies;
      var here := AtTable(n - 1, Slots(tables, ms, n - 1, w));
      assert site in Sites(tables, ms, n, w) <==> site in Sites(tables, ms, n - 1, w) || site in here;
      if site in here {
        var i :| 0 <= i < |here| && here[i] == site;
        assert Slots(tables, ms, n - 1, w)[i] in Slots(tables, ms, n - 1, w);
      }
      if site.table == n - 1 && site.slot in Slots(tables, ms, n - 1, w) {
        var i :| 0 <= i < |Slots(tables, ms, n - 1, w)| && Slots(tables, ms, n - 1, w)[i] == site.slot;
        assert here[i] == site;
      }
      SlotsExact(tables, ms, n - 1, w, site.slot);
    }
  }

  lemma SlotsExact(tables: seq<LookupTable>, ms: seq<Mention>, t: nat, w: bool, s: nat)
    requires t < |tables|
    ensures s in Slots(tables, ms, t, w) <==> Supplies(tables, ms, t, s, w)
  {
    var all := Range(|tables[t].addresses|);
    if Supplies(tables, ms, t, s, w) {
      assert all[s] == s;
    }
  }

  lemma SlotsAscend(tables: seq<LookupTable>, ms: seq<Mention>, t: nat, w: bool)
    requires t < |tables|
    ensures Increasing(Slots(tables, ms, t, w))
  {
    hide Supplies;
    var r := Range(|tables[t].addresses|);
    var rank := map s: nat | s in r :: s;
    FilterAscends(r, rank, s => Supplies(tables, ms, t, s, w));
  }

  lemma SlotsDistinct(tables: seq<LookupTable>, ms: seq<Mention>, t: nat, w: bool)
    requires t < |tables|
    ensures Distinct(Slots(tables, ms, t, w))
  {
    hide Supplies, Slots;
    SlotsAscend(tables, ms, t, w);
  }

  /** Table by table, no site occurs twice. */
  lemma {:induction false} SitesDistinct(tables: seq<LookupTable>, ms: seq<Mention>, n: nat, w: bool)
    requires n <= |tables|
    ensures Distinct(Sites(tables, ms, n, w))
    ensures forall i :: 0 <= i < |Sites(tables, ms, n, w)| ==> Sites(tables, ms, n, w)[i].table < n
  {
    hide Slots;
    if n > 0 {
      SitesDistinct(tables, ms, n - 1, w);
      SlotsDistinct(tables, ms, n - 1, w);
    }
  }

  /** Position p of the space, past the static keys, comes from this site. */
  ghost function SiteAt(payer: PublicKey, ixs: seq<Option<Instruction>>, tables: seq<LookupTable>, p: nat):
    (r: TableSlot)
    requires Present(ixs)
    requires |StaticKeys(Statics(payer, ixs, tables))| <= p < |Space(payer, ixs, tables)|
  {
    var ms := Moved(payer, ixs, tables);
    var fixed := |StaticKeys(Statics(payer, ixs, tables))|;
    (Sites(tables, ms, |tables|, true) + Sites(tables, ms, |tables|, false))[p - fixed]
  }

  lemma SpaceSite(payer: PublicKey, ixs: seq<Option<Instruction>>, tables: seq<LookupTable>, p: nat)
    requires Present(ixs)
    requires |StaticKeys(Statics(payer, ixs, tables))| <= p < |Space(payer, ixs, tables)|
    ensures var ms, site := Moved(payer, ixs, tables), SiteAt(payer, ixs, tables, p);
            var k, fixed := Space(payer, ixs, tables)[p], |StaticKeys(Statics(payer, ixs, tables))|;
            && site.table < |tables| && site.slot < |tables[site.table].addresses|
            && k == tables[site.table].addresses[site.slot]
            && Find(tables, k) == Some(site) && Mentioned(ms, k)
            && (Writes(ms, k) <==> p < fixed + |Sites(tables, ms, |tables|, true)|)
  {
    hide StaticKeys, Statics, Moved, Sites, Find;
    var ms, site := Moved(payer, ixs, tables), SiteAt(payer, ixs, tables, p);
    var w, r := Sites(tables, ms, |tables|, true), Sites(tables, ms, |tables|, false);
    var q := p - |StaticKeys(Statics(payer, ixs, tables))|;
    if q < |w| {
      assert site == w[q] && w[q] in w;
      SitesExact(tables, ms, |tables|, true, site);
    } else {
      assert site == r[q - |w|] && r[q - |w|] in r;
      SitesExact(tables, ms, |tables|, false, site);
    }
  }

  /** A routed key that some meta mentions has a position past the static keys. */
  lemma RoutedHasSite(payer: PublicKey, ixs: seq<Option<Instruction>>, tables: seq<LookupTable>, k: PublicKey)
    returns (p: nat)
    requires Present(ixs) && Routed(payer, ixs, tables, k) && Mentioned(MetaMentions(ixs, |ixs|, KeepAll), k)
    ensures |StaticKeys(Statics(payer, ixs, tables))| <= p < |Space(payer, ixs, tables)|
    ensures Space(payer, ixs, tables)[p] == k
  {
    hide StaticKeys, Statics, Sites, Mentioned, Writes;
    var ms, site := Moved(payer, ixs, tables), Find(tables, k).value;
    MetaMentionsKept(ixs, |ixs|, (x: PublicKey) => Routed(payer, ixs, tables, x), k);
    SitesExact(tables, ms, |tables|, Writes(ms, k), site);
    var w, r := Sites(tables, ms, |tables|, true), Sites(tables, ms, |tables|, false);
    assert site in w || site in r;
    assert tables[site.table].addresses[site.slot] == k;
    var i := SiteIndex(w, r, site);
    p := |StaticKeys(Statics(payer, ixs, tables))| + i;
  }

  lemma SiteIndex(w: seq<TableSlot>, r: seq<TableSlot>, site: TableSlot) returns (i: nat)
    requires site in w || site in r
    ensures i < |w| + |r| && site == if i < |w| then w[i] else r[i - |w|]
  {
    if site in w {
      i :| 0 <= i < |w| && w[i] == site;
    } else {
      var j :| 0 <= j < |r| && r[j] == site;
      i := |w| + j;
    }
  }

  lemma {:induction false} EnterLast(xs: seq<PublicKey>, k: PublicKey, p: nat)
    requires p < |xs| && xs[p] == k
    ensures k in Enter(map[], xs, 0) && Enter(map[], xs, 0)[k] >= p
  {
    if p < |xs| - 1 && xs[|xs| - 1] != k {
      EnterLast(xs[..|xs| - 1], k, p);
    }
  }

  ghost function IndexOf(payer: PublicKey, ixs: seq<Option<Instruction>>, tables: seq<LookupTable>):
    (r: map<PublicKey, nat>)
    requires Present(ixs)
  {
    Enter(map[], Space(payer, ixs, tables), 0)
  }

  ghost predicate Referenced(ixs: seq<Option<Instruction>>, k: PublicKey)
    requires Present(ixs)
  {
    IsProgram(ixs, |ixs|, k) || Mentioned(MetaMentions(ixs, |ixs|, KeepAll), k)
  }

  /**
   Every key that the instructions reference has an index, at which the space holds it; a routed
   account of some meta is indexed past the static keys, every other key among them.
   */
  lemma ReferencedIndexed(payer: PublicKey, ixs: seq<Option<Instruction>>, tables: seq<LookupTable>, k: PublicKey)
    requires Present(ixs) && (Referenced(ixs, k) || k == payer)
    ensures k in IndexOf(payer, ixs, tables)
    ensures var i := IndexOf(payer, ixs, tables)[k];
            && i < |Space(payer, ixs, tables)| && Space(payer, ixs, tables)[i] == k
            && (i < |StaticKeys(Statics(payer, ixs, tables))| <==>
                !(Routed(payer, ixs, tables, k) && Mentioned(MetaMentions(ixs, |ixs|, KeepAll), k)))
  {
    var space, metas := Space(payer, ixs, tables), MetaMentions(ixs, |ixs|, KeepAll);
    StaticMentionsKept(payer, ixs, |ixs|, (x: PublicKey) => !Routed(payer, ixs, tables, x), k);
    MetaMentionsKept(ixs, |ixs|, (x: PublicKey) => Routed(payer, ixs, tables, x), k);
    StaticKeysContents(Statics(payer, ixs, tables), k);
    EnterPoints(space, k);
    var routed := Routed(payer, ixs, tables, k) && Mentioned(metas, k);
    if routed {
      var p := RoutedHasSite(payer, ixs, tables, k);
      EnterLast(space, k, p);
    } else {
      assert k in StaticKeys(Statics(payer, ixs, tables));
      assert k in space;
      var i := IndexOf(payer, ixs, tables)[k];
      if i >= |StaticKeys(Statics(payer, ixs, tables))| {
        SpaceSite(payer, ixs, tables, i);
      }
    }
  }

  lemma AllIndexed(payer: PublicKey, ixs: seq<Option<Instruction>>, tables: seq<LookupTable>, i: nat)
    requires Present(ixs) && i < |ixs|
    ensures KeysIndexed(ixs[i].value, IndexOf(payer, ixs, tables))
  {
    var ix := ixs[i].value;
    assert IsProgram(ixs, |ixs|, ix.programId);
    ReferencedIndexed(payer, ixs, tables, ix.programId);
    forall j | 0 <= j < |ix.accounts| ensures ix.accounts[j].value.publicKey in IndexOf(payer, ixs, tables) {
      MetaMember(ixs, |ixs|, i, j);
      ReferencedIndexed(payer, ixs, tables, ix.accounts[j].value.publicKey);
    }
  }

  /** Compiling refuses exactly what a caller can see: no or nil instructions, data errors, too many accounts. */
  lemma V0SucceedsExactly(payer: PublicKey, ixs: seq<Option<Instruction>>, blockhash: Hash, tables: seq<LookupTable>)
    ensures V0Message(payer, ixs, blockhash, tables).Success? <==>
            && |ixs| > 0 && Present(ixs)
            && (forall i :: 0 <= i < |ixs| ==> ixs[i].value.data.Some?)
            && |Space(payer, ixs, tables)| <= 256
  {
    NoNilIsPresent(ixs, |ixs|);
    assert ixs[..|ixs|] == ixs;
    if Present(ixs) {
      forall i | 0 <= i < |ixs| ensures KeysIndexed(ixs[i].value, IndexOf(payer, ixs, tables)) {
        AllIndexed(payer, ixs, tables, i);
      }
      CompileAllExact(ixs, |ixs|, IndexOf(payer, ixs, tables));
    }
  }

  // ---------------------------------------------------------------- resolution

  /** The addresses that sites deliver once their slots have been written as bytes. */
  function Delivered(tables: seq<LookupTable>, sites: seq<TableSlot>): (ks: seq<PublicKey>)
    requires ValidSites(tables, sites)
    ensures |ks| == |sites|
  {
    seq(|sites|, i requires 0 <= i < |sites| => tables[sites[i].table].addresses[sites[i].slot % 256])
  }

  ghost predicate Agrees(alts: Tables, tables: seq<LookupTable>) {
    forall t :: 0 <= t < |tables| ==> tables[t].accountKey in alts && alts[tables[t].accountKey] == tables[t].addresses
  }

  lemma {:induction false} SelectSlots(tables: seq<LookupTable>, t: nat, ss: seq<nat>, n: nat)
    requires t < |tables| && n <= |ss|
    requires forall i :: 0 <= i < |ss| ==> ss[i] < |tables[t].addresses|
    ensures Select(tables[t].addresses, SlotBytes(ss), n) == Success(Delivered(tables, AtTable(t, ss[..n])))
  {
    if n > 0 {
      SelectSlots(tables, t, ss, n - 1);
      assert Delivered(tables, AtTable(t, ss[..n])) ==
             Delivered(tables, AtTable(t, ss[..n - 1])) + [tables[t].addresses[ss[n - 1] % 256]];
    }
  }

  lemma LookupsStep(tables: seq<LookupTable>, ms: seq<Mention>, n: nat, alts: Tables, w: bool)
    requires 0 < n <= |tables| && Agrees(alts, tables)
    requires ResolveSide(Lookups(tables, ms, n - 1), |Lookups(tables, ms, n - 1)|, alts, w).Success?
    ensures ResolveSide(Lookups(tables, ms, n), |Lookups(tables, ms, n)|, alts, w) ==
            Success(ResolveSide(Lookups(tables, ms, n - 1), |Lookups(tables, ms, n - 1)|, alts, w).value
                    + Delivered(tables, AtTable(n - 1, Slots(tables, ms, n - 1, w))))
  {
    hide *;
    var ws, rs := Slots(tables, ms, n - 1, true), Slots(tables, ms, n - 1, false);
    var key := tables[n - 1].accountKey;
    assert alts[key] == tables[n - 1].addresses by {
      AgreesAt(alts, tables, n - 1);
    }
    LookupsUnfold(tables, ms, n);
    TableStep(tables, n - 1, key, ws, rs, Lookups(tables, ms, n - 1), alts, w);
  }

  lemma AgreesAt(alts: Tables, tables: seq<LookupTable>, t: nat)
    requires Agrees(alts, tables) && t < |tables|
    ensures tables[t].accountKey in alts && alts[tables[t].accountKey] == tables[t].addresses
  {
  }

  lemma LookupsUnfold(tables: seq<LookupTable>, ms: seq<Mention>, n: nat)
    requires 0 < n <= |tables|
    ensures var ws, rs := Slots(tables, ms, n - 1, true), Slots(tables, ms, n - 1, false);
            Lookups(tables, ms, n) == Lookups(tables, ms, n - 1)
            + if ws == [] && rs == [] then []
              else [AddressTableLookup(tables[n - 1].accountKey, SlotBytes(ws), SlotBytes(rs))]
  {
    hide Slots, SlotBytes;
  }

  lemma TableStep(tables: seq<LookupTable>, t: nat, key: PublicKey, ws: seq<nat>, rs: seq<nat>,
                  before: seq<AddressTableLookup>, alts: Tables, w: bool)
    requires t < |tables| && key in alts && alts[key] == tables[t].addresses
    requires forall i :: 0 <= i < |ws| ==> ws[i] < |tables[t].addresses|
    requires forall i :: 0 <= i < |rs| ==> rs[i] < |tables[t].addresses|
    requires ResolveSide(before, |before|, alts, w).Success?
    ensures var lks := before + if ws == [] && rs == [] then []
                                else [AddressTableLookup(key, SlotBytes(ws), SlotBytes(rs))];
            ResolveSide(lks, |lks|, alts, w) ==
            Success(ResolveSide(before, |before|, alts, w).value
                    + Delivered(tables, AtTable(t, if w then ws else rs)))
  {
    hide ResolveSide, Select;
    var ss := if w then ws else rs;
    if ws == [] && rs == [] {
      assert before + [] == before;
      var ks := ResolveSide(before, |before|, alts, w).value;
      assert ks + Delivered(tables, AtTable(t, ss)) == ks;
    } else {
      SelectSlots(tables, t, ss, |ss|);
      assert ss[..|ss|] == ss;
      var last := AddressTableLookup(key, SlotBytes(ws), SlotBytes(rs));
      assert Indexes(last, w) == SlotBytes(ss);
      hide Delivered, SlotBytes;
      ResolveSideSnoc(before, last, alts, w);
    }
  }

  /** What the compiled lookups resolve to, table by table. */
  lemma {:induction false} LookupsResolve(tables: seq<LookupTable>, ms: seq<Mention>, n: nat, alts: Tables, w: bool)
    requires n <= |tables| && Agrees(alts, tables)
    ensures var lks := Lookups(tables, ms, n);
            ResolveSide(lks, |lks|, alts, w) == Success(Delivered(tables, Sites(tables, ms, n, w)))
  {
    hide Lookups, ResolveSide, Delivered, Slots, Agrees;
    if n == 0 {
      NoneResolve(tables, ms, alts, w);
    } else {
      LookupsResolve(tables, ms, n - 1, alts, w);
      LookupsStep(tables, ms, n, alts, w);
      DeliveredCat(tables, Sites(tables, ms, n - 1, w), AtTable(n - 1, Slots(tables, ms, n - 1, w)));
    }
  }

  lemma NoneResolve(tables: seq<LookupTable>, ms: seq<Mention>, alts: Tables, w: bool)
    ensures ResolveSide(Lookups(tables, ms, 0), |Lookups(tables, ms, 0)|, alts, w) ==
            Success(Delivered(tables, Sites(tables, ms, 0, w)))
  {
  }

  lemma DeliveredCat(tables: seq<LookupTable>, a: seq<TableSlot>, b: seq<TableSlot>)
    requires ValidSites(tables, a) && ValidSites(tables, b)
    ensures ValidSites(tables, a + b) && Delivered(tables, a + b) == Delivered(tables, a) + Delivered(tables, b)
  {
  }

  lemma ResolveSideSnoc(lks: seq<AddressTableLookup>, last: AddressTableLookup, alts: Tables, w: bool)
    requires last.accountKey in alts && ResolveSide(lks, |lks|, alts, w).Success?
    requires Select(alts[last.accountKey], Indexes(last, w), |Indexes(last, w)|).Success?
    ensures ResolveSide(lks + [last], |lks| + 1, alts, w) ==
            Success(ResolveSide(lks, |lks|, alts, w).value
                    + Select(alts[last.accountKey], Indexes(last, w), |Indexes(last, w)|).value)
  {
    ResolveSidePrefix(lks + [last], |lks|, alts, w, lks);
  }

  lemma {:induction false} ResolveSidePrefix(lks: seq<AddressTableLookup>, n: nat, alts: Tables, w: bool,
                                             prefix: seq<AddressTableLookup>)
    requires n == |prefix| <= |lks| && lks[..n] == prefix
    ensures ResolveSide(lks, n, alts, w) == ResolveSide(prefix, n, alts, w)
    decreases n
  {
    if n > 0 {
      ResolveSidePrefix(lks, n - 1, alts, w, prefix[..n - 1]);
      ResolveSidePrefix(prefix, n - 1, alts, w, prefix[..n - 1]);
    }
  }
}

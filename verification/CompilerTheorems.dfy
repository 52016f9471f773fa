/** The guarantees of the message builders, each with the exact condition under which it holds. */
module CompilerTheorems {
  import opened Wire
  import opened Message
  import opened Ordering
  import opened StaticEntries
  import opened Builder
  import opened Resolution
  import opened Compilation

  // ---------------------------------------------------------------- meaning

  /** Every index of m, looked up in keys, names what the source instruction names. */
  ghost predicate Faithful(m: Message, keys: seq<PublicKey>, ixs: seq<Option<Instruction>>)
    requires Present(ixs)
  {
    && |m.instructions| == |ixs|
    && forall i :: 0 <= i < |ixs| ==> FaithfulOne(m.instructions[i], keys, ixs[i].value)
  }

  ghost predicate FaithfulOne(c: CompiledInstruction, keys: seq<PublicKey>, ix: Instruction)
    requires MetasPresent(ix.accounts)
  {
    && ix.data == Some(c.data)
    && c.programIdIndex < |keys| && keys[c.programIdIndex] == ix.programId
    && |c.accounts| == |ix.accounts|
    && forall j :: 0 <= j < |c.accounts| ==>
         c.accounts[j] < |keys| && keys[c.accounts[j]] == ix.accounts[j].value.publicKey
  }

  /** Every account that is moved into a table sits at a slot that fits a byte. */
  ghost predicate SlotsFit(payer: PublicKey, ixs: seq<Option<Instruction>>, tables: seq<LookupTable>)
    requires Present(ixs)
  {
    forall i, j :: 0 <= i < |ixs| && 0 <= j < |ixs[i].value.accounts| ==>
      var k := ixs[i].value.accounts[j].value.publicKey;
      Routed(payer, ixs, tables, k) ==> Find(tables, k).value.slot < 256
  }

  /** The resolved index space: the built one, with table slots read back as bytes. */
  ghost function Resolved(payer: PublicKey, ixs: seq<Option<Instruction>>, tables: seq<LookupTable>):
    (r: seq<PublicKey>)
    requires Present(ixs)
  {
    var ms := Moved(payer, ixs, tables);
    StaticKeys(Statics(payer, ixs, tables))
    + Delivered(tables, Sites(tables, ms, |tables|, true))
    + Delivered(tables, Sites(tables, ms, |tables|, false))
  }

  lemma {:induction false} NoLookupsNoSites(tables: seq<LookupTable>, ms: seq<Mention>, n: nat)
    requires n <= |tables| && Lookups(tables, ms, n) == []
    ensures Sites(tables, ms, n, true) == [] && Sites(tables, ms, n, false) == []
  {
    hide Slots;
    if n > 0 {
      LookupsUnfold(tables, ms, n);
      NoLookupsNoSites(tables, ms, n - 1);
    }
  }

  /** What V0Message puts into a message. */
  lemma V0Layout(payer: PublicKey, ixs: seq<Option<Instruction>>, blockhash: Hash, tables: seq<LookupTable>)
    requires V0Message(payer, ixs, blockhash, tables).Success?
    ensures Present(ixs)
    ensures var m, ms := V0Message(payer, ixs, blockhash, tables).value, Statics(payer, ixs, tables);
            && m.accountKeys == StaticKeys(ms) && m.header == HeaderOf(ms) && |m.accountKeys| <= 256
            && m.lookups == Lookups(tables, Moved(payer, ixs, tables), |tables|)
  {
    V0SucceedsExactly(payer, ixs, blockhash, tables);
  }

  /** A compiled v0 message always resolves over its own tables. */
  lemma V0Resolves(payer: PublicKey, ixs: seq<Option<Instruction>>, blockhash: Hash, tables: seq<LookupTable>,
                   alts: Tables)
    requires V0Message(payer, ixs, blockhash, tables).Success? && Agrees(alts, tables)
    ensures Present(ixs)
    ensures Resolve(V0Message(payer, ixs, blockhash, tables).value, alts) == Success(Resolved(payer, ixs, tables))
  {
    hide V0Message, Lookups, Sites, StaticKeys, Statics, Moved, Delivered, Resolve, ResolveSide, Agrees, HeaderOf;
    V0Layout(payer, ixs, blockhash, tables);
    var ms, m := Moved(payer, ixs, tables), V0Message(payer, ixs, blockhash, tables).value;
    LookupsResolve(tables, ms, |tables|, alts, true);
    LookupsResolve(tables, ms, |tables|, alts, false);
    if |m.lookups| == 0 {
      NoLookupsNoSites(tables, ms, |tables|);
      DeliveredNone(tables);
    }
    var w := Delivered(tables, Sites(tables, ms, |tables|, true));
    var r := Delivered(tables, Sites(tables, ms, |tables|, false));
    assert Resolved(payer, ixs, tables) == m.accountKeys + w + r;
    ResolveParts(m, alts, w, r);
  }

  lemma ResolveParts(m: Message, alts: Tables, w: seq<PublicKey>, r: seq<PublicKey>)
    requires ResolveSide(m.lookups, |m.lookups|, alts, true) == Success(w)
    requires ResolveSide(m.lookups, |m.lookups|, alts, false) == Success(r)
    requires |m.lookups| == 0 ==> w == [] && r == []
    ensures Resolve(m, alts) == Success(m.accountKeys + w + r)
  {
    hide ResolveSide;
    if |m.lookups| == 0 {
      assert m.accountKeys + [] + [] == m.accountKeys;
    }
  }

  lemma DeliveredNone(tables: seq<LookupTable>)
    ensures Delivered(tables, []) == []
  {
  }

  /** Position p of the space resolves to the key it was built for, unless its slot does not fit a byte. */
  lemma ResolvedAt(payer: PublicKey, ixs: seq<Option<Instruction>>, tables: seq<LookupTable>, p: nat)
    requires Present(ixs) && p < |Space(payer, ixs, tables)|
    ensures |Resolved(payer, ixs, tables)| == |Space(payer, ixs, tables)|
    ensures Resolved(payer, ixs, tables)[p] == Space(payer, ixs, tables)[p] <==>
            (p >= |StaticKeys(Statics(payer, ixs, tables))| ==> SiteAt(payer, ixs, tables, p).slot < 256)
  {
    hide StaticKeys, Statics, Sites, Moved;
    if p >= |StaticKeys(Statics(payer, ixs, tables))| {
      SpaceSite(payer, ixs, tables, p);
      var site := SiteAt(payer, ixs, tables, p);
      assert Resolved(payer, ixs, tables)[p] == tables[site.table].addresses[site.slot % 256];
      FoundFirst(tables, |tables|, Space(payer, ixs, tables)[p]);
    }
  }

  /** The located slot is the first of its table that holds the key. */
  lemma {:induction false} FoundFirst(tables: seq<LookupTable>, n: nat, k: PublicKey)
    requires n <= |tables| && Locate(tables, n, k).Some?
    ensures var site := Locate(tables, n, k).value;
            forall s :: 0 <= s < site.slot ==> tables[site.table].addresses[s] != k
  {
    if Locate(tables, n - 1, k).Some? {
      FoundFirst(tables, n - 1, k);
    } else {
      IsFirst(tables[n - 1].addresses, |tables[n - 1].addresses|, k);
    }
  }

  lemma {:induction false} IsFirst(xs: seq<PublicKey>, n: nat, k: PublicKey)
    requires n <= |xs| && FirstIndex(xs, n, k).Some?
    ensures forall s :: 0 <= s < FirstIndex(xs, n, k).value ==> xs[s] != k
  {
    if FirstIndex(xs, n - 1, k).Some? {
      IsFirst(xs, n - 1, k);
    }
  }

  /** The index of a referenced key resolves to that key exactly when its slot fits a byte. */
  lemma KeyResolves(payer: PublicKey, ixs: seq<Option<Instruction>>, tables: seq<LookupTable>, k: PublicKey)
    requires Present(ixs) && Referenced(ixs, k)
    ensures k in IndexOf(payer, ixs, tables)
    ensures IndexOf(payer, ixs, tables)[k] < |Space(payer, ixs, tables)| == |Resolved(payer, ixs, tables)|
    ensures Resolved(payer, ixs, tables)[IndexOf(payer, ixs, tables)[k]] == k <==>
            (Routed(payer, ixs, tables, k) && Mentioned(MetaMentions(ixs, |ixs|, KeepAll), k) ==>
               Find(tables, k).value.slot < 256)
  {
    ReferencedIndexed(payer, ixs, tables, k);
    var p := IndexOf(payer, ixs, tables)[k];
    hide StaticKeys, Statics, Sites, Moved, Resolved, Space, IndexOf, Mentioned;
    ResolvedAt(payer, ixs, tables, p);
    if p >= |StaticKeys(Statics(payer, ixs, tables))| {
      SpaceSite(payer, ixs, tables, p);
    }
  }

  lemma OneIsFaithful(payer: PublicKey, ixs: seq<Option<Instruction>>, tables: seq<LookupTable>, i: nat,
                      c: CompiledInstruction)
    requires Present(ixs) && i < |ixs| && |Space(payer, ixs, tables)| <= 256
    requires KeysIndexed(ixs[i].value, IndexOf(payer, ixs, tables))
    requires Compiles(ixs[i].value, IndexOf(payer, ixs, tables), c)
    requires SlotsFit(payer, ixs, tables)
    ensures FaithfulOne(c, Resolved(payer, ixs, tables), ixs[i].value)
  {
    var keys, ix := Resolved(payer, ixs, tables), ixs[i].value;
    assert IsProgram(ixs, |ixs|, ix.programId);
    assert Referenced(ixs, ix.programId);
    hide Space, Resolved, IndexOf, Present, Referenced, SlotsFit, IsProgram;
    KeyFits(payer, ixs, tables, ix.programId);
    ProgramIndex(ix, IndexOf(payer, ixs, tables), c);
    forall j | 0 <= j < |ix.accounts|
      ensures |c.accounts| == |ix.accounts|
      ensures c.accounts[j] < |keys| && keys[c.accounts[j]] == ix.accounts[j].value.publicKey
    {
      MetaFits(payer, ixs, tables, i, j, c);
    }
    hide KeysIndexed;
  }

  lemma ProgramIndex(ix: Instruction, index: map<PublicKey, nat>, c: CompiledInstruction)
    requires MetasPresent(ix.accounts) && KeysIndexed(ix, index) && Compiles(ix, index, c)
    ensures index[ix.programId] < 256 ==> c.programIdIndex == index[ix.programId]
  {
  }

  lemma MetaFits(payer: PublicKey, ixs: seq<Option<Instruction>>, tables: seq<LookupTable>, i: nat, j: nat,
                 c: CompiledInstruction)
    requires Present(ixs) && i < |ixs| && j < |ixs[i].value.accounts| && |Space(payer, ixs, tables)| <= 256
    requires KeysIndexed(ixs[i].value, IndexOf(payer, ixs, tables))
    requires Compiles(ixs[i].value, IndexOf(payer, ixs, tables), c)
    requires SlotsFit(payer, ixs, tables)
    ensures |c.accounts| == |ixs[i].value.accounts| && c.accounts[j] < |Resolved(payer, ixs, tables)|
    ensures Resolved(payer, ixs, tables)[c.accounts[j]] == ixs[i].value.accounts[j].value.publicKey
  {
    MetaMember(ixs, |ixs|, i, j);
    assert Referenced(ixs, ixs[i].value.accounts[j].value.publicKey);
    hide *;
    KeyFits(payer, ixs, tables, ixs[i].value.accounts[j].value.publicKey);
    AccountIndex(ixs[i].value, IndexOf(payer, ixs, tables), c, j);
  }

  lemma KeyFits(payer: PublicKey, ixs: seq<Option<Instruction>>, tables: seq<LookupTable>, k: PublicKey)
    requires Present(ixs) && Referenced(ixs, k) && SlotsFit(payer, ixs, tables)
    ensures k in IndexOf(payer, ixs, tables)
    ensures IndexOf(payer, ixs, tables)[k] < |Space(payer, ixs, tables)| == |Resolved(payer, ixs, tables)|
    ensures Resolved(payer, ixs, tables)[IndexOf(payer, ixs, tables)[k]] == k
  {
    hide *;
    KeyResolves(payer, ixs, tables, k);
    FitsForAll(payer, ixs, tables, k);
  }

  lemma FitsForAll(payer: PublicKey, ixs: seq<Option<Instruction>>, tables: seq<LookupTable>, k: PublicKey)
    requires Present(ixs) && SlotsFit(payer, ixs, tables)
    ensures Routed(payer, ixs, tables, k) && Mentioned(MetaMentions(ixs, |ixs|, KeepAll), k) ==>
              Find(tables, k).value.slot < 256
  {
    if Routed(payer, ixs, tables, k) && Mentioned(MetaMentions(ixs, |ixs|, KeepAll), k) {
      var i, j := MetaOrigin(ixs, |ixs|, k);
    }
  }

  lemma MisfitIsUnfaithful(payer: PublicKey, ixs: seq<Option<Instruction>>, tables: seq<LookupTable>, i: nat, j: nat,
                           c: CompiledInstruction)
    requires Present(ixs) && i < |ixs| && j < |ixs[i].value.accounts| && |Space(payer, ixs, tables)| <= 256
    requires KeysIndexed(ixs[i].value, IndexOf(payer, ixs, tables))
    requires Compiles(ixs[i].value, IndexOf(payer, ixs, tables), c)
    requires Routed(payer, ixs, tables, ixs[i].value.accounts[j].value.publicKey)
    requires Find(tables, ixs[i].value.accounts[j].value.publicKey).value.slot >= 256
    ensures !FaithfulOne(c, Resolved(payer, ixs, tables), ixs[i].value)
  {
    var k := ixs[i].value.accounts[j].value.publicKey;
    MetaMember(ixs, |ixs|, i, j);
    KeyResolves(payer, ixs, tables, k);
    assert Mentioned(MetaMentions(ixs, |ixs|, KeepAll), k);
    hide Space, Resolved, IndexOf, Routed, Find, Mentioned, Present, Referenced, KeysIndexed;
    AccountIndex(ixs[i].value, IndexOf(payer, ixs, tables), c, j);
  }

  // ---------------------------------------------------------------- repeated keys

  /** A program that is also a routed account of some meta: it stays static and is moved as well. */
  ghost predicate Doubled(payer: PublicKey, ixs: seq<Option<Instruction>>, tables: seq<LookupTable>, k: PublicKey)
    requires Present(ixs)
  {
    && IsProgram(ixs, |ixs|, k) && Routed(payer, ixs, tables, k)
    && Mentioned(MetaMentions(ixs, |ixs|, KeepAll), k)
  }

  lemma DoubledTwice(payer: PublicKey, ixs: seq<Option<Instruction>>, tables: seq<LookupTable>, k: PublicKey)
    returns (i: nat, p: nat)
    requires Present(ixs) && Doubled(payer, ixs, tables, k)
    ensures i < |StaticKeys(Statics(payer, ixs, tables))| <= p < |Space(payer, ixs, tables)|
    ensures Space(payer, ixs, tables)[i] == k == Space(payer, ixs, tables)[p]
  {
    hide Mentioned, Routed, IsProgram, StaticKeys, Supplied;
    StaticMentionsKept(payer, ixs, |ixs|, (x: PublicKey) => !Routed(payer, ixs, tables, x), k);
    var ms := Statics(payer, ixs, tables);
    StaticKeysContents(ms, k);
    i :| 0 <= i < |StaticKeys(ms)| && StaticKeys(ms)[i] == k;
    p := RoutedHasSite(payer, ixs, tables, k);
  }

  /** A key that stands both among the static keys and in a table is doubled. */
  lemma StaticAndMoved(payer: PublicKey, ixs: seq<Option<Instruction>>, tables: seq<LookupTable>, i: nat, p: nat)
    requires Present(ixs)
    requires i < |StaticKeys(Statics(payer, ixs, tables))| <= p < |Space(payer, ixs, tables)|
    requires Space(payer, ixs, tables)[i] == Space(payer, ixs, tables)[p]
    ensures Doubled(payer, ixs, tables, Space(payer, ixs, tables)[p])
  {
    hide Mentioned, Writes, IsProgram, StaticKeys, Supplied, Sites, Find;
    var k := Space(payer, ixs, tables)[p];
    SpaceSite(payer, ixs, tables, p);
    StaticKeysContents(Statics(payer, ixs, tables), k);
    MetaMentionsKept(ixs, |ixs|, (x: PublicKey) => Routed(payer, ixs, tables, x), k);
    StaticMentionsKept(payer, ixs, |ixs|, (x: PublicKey) => !Routed(payer, ixs, tables, x), k);
  }

  /** Two table positions hold different keys. */
  lemma MovedOnce(payer: PublicKey, ixs: seq<Option<Instruction>>, tables: seq<LookupTable>, p: nat, q: nat)
    requires Present(ixs) && |StaticKeys(Statics(payer, ixs, tables))| <= p < q < |Space(payer, ixs, tables)|
    ensures Space(payer, ixs, tables)[p] != Space(payer, ixs, tables)[q]
  {
    hide StaticKeys, Statics, Moved, Sites, Find, Mentioned, Writes;
    var ms := Moved(payer, ixs, tables);
    SpaceSite(payer, ixs, tables, p);
    SpaceSite(payer, ixs, tables, q);
    SitesDistinct(tables, ms, |tables|, true);
    SitesDistinct(tables, ms, |tables|, false);
  }

  /** The index space repeats a key if and only if some program is also a routed account of a meta. */
  lemma SpaceRepeatsExactly(payer: PublicKey, ixs: seq<Option<Instruction>>, tables: seq<LookupTable>)
    requires Present(ixs)
    ensures Distinct(Space(payer, ixs, tables)) <==> !exists k :: Doubled(payer, ixs, tables, k)
  {
    hide Doubled, Statics;
    var space, ms := Space(payer, ixs, tables), Statics(payer, ixs, tables);
    if k :| Doubled(payer, ixs, tables, k) {
      var i, p := DoubledTwice(payer, ixs, tables, k);
    } else {
      forall i, j | 0 <= i < j < |space| ensures space[i] != space[j] {
        if j < |StaticKeys(ms)| {
          StaticKeysOrdered(ms, i, j);
        } else if |StaticKeys(ms)| <= i {
          MovedOnce(payer, ixs, tables, i, j);
        } else if space[i] == space[j] {
          StaticAndMoved(payer, ixs, tables, i, j);
        }
      }
    }
  }

  lemma AccountIndex(ix: Instruction, index: map<PublicKey, nat>, c: CompiledInstruction, j: nat)
    requires MetasPresent(ix.accounts) && KeysIndexed(ix, index) && Compiles(ix, index, c)
    requires j < |ix.accounts|
    ensures |c.accounts| == |ix.accounts|
    ensures index[ix.accounts[j].value.publicKey] < 256 ==> c.accounts[j] == index[ix.accounts[j].value.publicKey]
  {
  }

  /**
   Compilation preserves meaning: over the tables it was compiled with, every compiled instruction
   resolves to its source program, accounts in order, and data, exactly when every account moved into
   a table sits below slot 256.
   */
  lemma CompilationIsFaithful(payer: PublicKey, ixs: seq<Option<Instruction>>, blockhash: Hash,
                              tables: seq<LookupTable>, alts: Tables)
    requires V0Message(payer, ixs, blockhash, tables).Success? && Agrees(alts, tables)
    ensures var m := V0Message(payer, ixs, blockhash, tables).value;
            && Present(ixs) && Resolve(m, alts).Success?
            && (Faithful(m, Resolve(m, alts).value, ixs) <==> SlotsFit(payer, ixs, tables))
  {
    V0Resolves(payer, ixs, blockhash, tables, alts);
    V0SucceedsExactly(payer, ixs, blockhash, tables);
    var m, index := V0Message(payer, ixs, blockhash, tables).value, IndexOf(payer, ixs, tables);
    forall i | 0 <= i < |ixs| ensures KeysIndexed(ixs[i].value, index) {
      AllIndexed(payer, ixs, tables, i);
    }
    CompileAllExact(ixs, |ixs|, index);
    assert |m.instructions| == |ixs| && forall i :: 0 <= i < |ixs| ==> Compiles(ixs[i].value, index, m.instructions[i]);
    hide V0Message, Resolve, Resolved, Space, IndexOf, FaithfulOne, Routed, KeysIndexed, Compiles, Find;
    if SlotsFit(payer, ixs, tables) {
      forall i | 0 <= i < |ixs| ensures FaithfulOne(m.instructions[i], Resolved(payer, ixs, tables), ixs[i].value) {
        OneIsFaithful(payer, ixs, tables, i, m.instructions[i]);
      }
    } else {
      var i, j :| 0 <= i < |ixs| && 0 <= j < |ixs[i].value.accounts|
        && var k := ixs[i].value.accounts[j].value.publicKey;
           Routed(payer, ixs, tables, k) && Find(tables, k).value.slot >= 256;
      MisfitIsUnfaithful(payer, ixs, tables, i, j, m.instructions[i]);
    }
  }
}

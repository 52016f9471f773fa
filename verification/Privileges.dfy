/**
 The privileges that a compiled message grants: what its header and lookups say of an account index
 is what the instructions asked of that account, taken over all of them.
 */
module Privileges {
  import opened Wire
  import opened Message
  import opened Ordering
  import opened StaticEntries
  import opened Builder
  import opened Resolution
  import opened Compilation
  import opened CompilerTheorems

  /** The distinct keys whose signature some meta, or the payer's role, requires. */
  ghost function SignerSet(payer: PublicKey, ixs: seq<Option<Instruction>>): (r: set<PublicKey>)
    requires Present(ixs)
  {
    var ms := MetaMentions(ixs, |ixs|, KeepAll);
    {payer} + set i | 0 <= i < |ms| && ms[i].signer :: ms[i].key
  }

  ghost predicate MustWrite(payer: PublicKey, ixs: seq<Option<Instruction>>, k: PublicKey)
    requires Present(ixs)
  {
    k == payer || Writes(MetaMentions(ixs, |ixs|, KeepAll), k)
  }

  /** Index i of m grants k exactly the roles that the instructions and the payer's role give it. */
  ghost predicate Grants(m: Message, payer: PublicKey, ixs: seq<Option<Instruction>>, i: nat, k: PublicKey)
    requires Present(ixs)
  {
    (IndexSigns(m, i) <==> MustSign(payer, ixs, k)) && (IndexWrites(m, i) <==> MustWrite(payer, ixs, k))
  }

  /** The indices that sign are static, and their keys must sign. */
  ghost predicate SigningIsStatic(m: Message, payer: PublicKey, ixs: seq<Option<Instruction>>)
    requires Present(ixs)
  {
    forall p: nat :: IndexSigns(m, p) ==> p < |m.accountKeys| && MustSign(payer, ixs, m.accountKeys[p])
  }

  /** Every program and account index of every instruction grants the roles of its key. */
  ghost predicate UsesGranted(m: Message, payer: PublicKey, ixs: seq<Option<Instruction>>)
    requires Present(ixs)
  {
    |m.instructions| == |ixs|
    && forall i :: 0 <= i < |ixs| ==> UseGranted(m, payer, ixs, m.instructions[i], ixs[i].value)
  }

  ghost predicate UseGranted(m: Message, payer: PublicKey, ixs: seq<Option<Instruction>>, c: CompiledInstruction,
                             ix: Instruction)
    requires Present(ixs) && MetasPresent(ix.accounts)
  {
    && Grants(m, payer, ixs, c.programIdIndex, ix.programId)
    && |c.accounts| == |ix.accounts|
    && forall j :: 0 <= j < |c.accounts| ==> Grants(m, payer, ixs, c.accounts[j], ix.accounts[j].value.publicKey)
  }

  /** The payer stands at index 0, no signer comes from a table, and every index used grants its key's roles. */
  ghost predicate PrivilegesExact(m: Message, payer: PublicKey, ixs: seq<Option<Instruction>>)
    requires Present(ixs)
  {
    && |m.accountKeys| > 0 && m.accountKeys[0] == payer && Grants(m, payer, ixs, 0, payer)
    && SigningIsStatic(m, payer, ixs) && UsesGranted(m, payer, ixs)
  }

  // ---------------------------------------------------------------- counting signers

  lemma {:induction false} DistinctSize<T(!new)>(xs: seq<T>, s: set<T>)
    requires Distinct(xs) && forall x :: x in xs <==> x in s
    ensures |xs| == |s|
    decreases |xs|
  {
    if |xs| == 0 {
      assert forall x :: x !in s;
    } else {
      var n := |xs| - 1;
      assert xs == xs[..n] + [xs[n]];
      assert xs[n] in xs;
      assert forall x :: x in xs[..n] <==> x in s - {xs[n]} by {
        forall x | x in xs[..n] ensures x != xs[n] {
          var i :| 0 <= i < n && xs[..n][i] == x;
        }
      }
      DistinctSize(xs[..n], s - {xs[n]});
    }
  }

  /** The signers of the static list, which come first, are counted by its first two buckets. */
  lemma SignersCounted(ms: seq<Mention>, signers: set<PublicKey>)
    requires forall k :: k in signers <==> Signs(ms, k)
    ensures |Bucket(ms, 0)| + |Bucket(ms, 1)| == |signers|
  {
    OffsetsOf(ms);
    var front := StaticKeys(ms)[..Offset(ms, 2)];
    forall i, j | 0 <= i < j < |front| ensures front[i] != front[j] {
      StaticKeysOrdered(ms, i, j);
    }
    forall k ensures k in front <==> k in signers {
      if k in front {
        var i :| 0 <= i < |front| && front[i] == k;
        var b, idx := BucketSplit(ms, i);
        OffsetMonotone(ms, b, 2);
      }
      if k in signers {
        MentionedIfRole(ms, k);
        StaticKeysContents(ms, k);
        var i :| 0 <= i < |StaticKeys(ms)| && StaticKeys(ms)[i] == k;
        var b, idx := BucketSplit(ms, i);
        assert front[i] == k;
      }
    }
    DistinctSize(front, signers);
  }

  lemma OffsetMonotone(ms: seq<Mention>, b: nat, c: nat)
    ensures c <= b ==> Offset(ms, c) <= Offset(ms, b)
    decreases b
  {
    if c < b {
      OffsetMonotone(ms, b - 1, c);
    }
  }

  /** What the header says of a static index, as long as the signers can be counted in a byte. */
  lemma StaticIndexRole(ms: seq<Mention>, m: Message, i: nat)
    requires m.accountKeys == StaticKeys(ms) && m.header == HeaderOf(ms) && i < |m.accountKeys| <= 256
    requires 1 <= |Bucket(ms, 0)| && |Bucket(ms, 0)| + |Bucket(ms, 1)| <= 255
    ensures IndexSigns(m, i) <==> Signs(ms, m.accountKeys[i])
    ensures IndexWrites(m, i) <==> Writes(ms, m.accountKeys[i])
  {
    var b, idx := BucketSplit(ms, i);
    OffsetsOf(ms);
    assert RoleOf(ms, m.accountKeys[i]) == b;
    var b0, b1, b2, b3 := |Bucket(ms, 0)|, |Bucket(ms, 1)|, |Bucket(ms, 2)|, |Bucket(ms, 3)|;
    hide Bucket, StaticKeys, Signs, Writes, Offset, IndexSigns, IndexWrites;
    RoleArithmetic(m, b0, b1, b2, b3, b, i);
  }

  lemma RoleArithmetic(m: Message, b0: nat, b1: nat, b2: nat, b3: nat, b: nat, i: nat)
    requires b0 >= 1 && b0 + b1 <= 255 && b0 + b1 + b2 + b3 == |m.accountKeys| <= 256
    requires m.header == CountHeader(b0, b1, b3) && i < |m.accountKeys|
    requires b == if i < b0 then 0 else if i < b0 + b1 then 1 else if i < b0 + b1 + b2 then 2 else 3
    ensures IndexSigns(m, i) <==> b < 2
    ensures IndexWrites(m, i) <==> b == 0 || b == 2
  {
    hide WritableCount;
  }

  lemma {:induction false} WritableSites(tables: seq<LookupTable>, ms: seq<Mention>, n: nat)
    requires n <= |tables|
    ensures WritableCount(Lookups(tables, ms, n)) == |Sites(tables, ms, n, true)|
  {
    hide Slots;
    if n > 0 {
      WritableSites(tables, ms, n - 1);
      LookupsUnfold(tables, ms, n);
      var before, w, r := Lookups(tables, ms, n - 1), Slots(tables, ms, n - 1, true), Slots(tables, ms, n - 1, false);
      assert |Sites(tables, ms, n, true)| == |Sites(tables, ms, n - 1, true)| + |w|;
      hide Lookups, Sites, WritableCount;
      if w == [] && r == [] {
        assert before + [] == before;
      } else {
        WritableSnoc(before, AddressTableLookup(tables[n - 1].accountKey, SlotBytes(w), SlotBytes(r)));
      }
    }
  }

  lemma WritableSnoc(lks: seq<AddressTableLookup>, last: AddressTableLookup)
    ensures WritableCount(lks + [last]) == WritableCount(lks) + |last.writableIndexes|
  {
    assert (lks + [last])[..|lks|] == lks;
  }

  // ---------------------------------------------------------------- exactness

  ghost predicate StaticRoles(payer: PublicKey, ixs: seq<Option<Instruction>>, tables: seq<LookupTable>, k: PublicKey)
    requires Present(ixs)
  {
    var ms := Statics(payer, ixs, tables);
    (Signs(ms, k) <==> MustSign(payer, ixs, k)) && (Writes(ms, k) <==> MustWrite(payer, ixs, k))
  }

  lemma StaticRolesHold(payer: PublicKey, ixs: seq<Option<Instruction>>, tables: seq<LookupTable>, k: PublicKey)
    requires Present(ixs)
    ensures Signs(Statics(payer, ixs, tables), k) <==> MustSign(payer, ixs, k)
    ensures !Routed(payer, ixs, tables, k) ==> StaticRoles(payer, ixs, tables, k)
  {
    StaticMentionsKept(payer, ixs, |ixs|, (x: PublicKey) => !Routed(payer, ixs, tables, x), k);
  }

  lemma SignerSetExact(payer: PublicKey, ixs: seq<Option<Instruction>>, k: PublicKey)
    requires Present(ixs)
    ensures k in SignerSet(payer, ixs) <==> MustSign(payer, ixs, k)
  {
  }

  lemma SignersOf(payer: PublicKey, ixs: seq<Option<Instruction>>, tables: seq<LookupTable>)
    requires Present(ixs)
    ensures var ms := Statics(payer, ixs, tables);
            && |Bucket(ms, 0)| + |Bucket(ms, 1)| == |SignerSet(payer, ixs)|
            && |Bucket(ms, 0)| >= 1
            && |StaticKeys(ms)| > 0 && StaticKeys(ms)[0] == payer
  {
    var ms := Statics(payer, ixs, tables);
    forall k ensures k in SignerSet(payer, ixs) <==> Signs(ms, k) {
      StaticRolesHold(payer, ixs, tables, k);
      SignerSetExact(payer, ixs, k);
    }
    StaticsHead(payer, ixs, |ixs|, (x: PublicKey) => !Routed(payer, ixs, tables, x));
    hide SignerSet, Statics;
    SignersCounted(ms, SignerSet(payer, ixs));
    PayerFirst(ms);
    var b, idx := BucketSplit(ms, 0);
    assert Signs(ms, ms[0].key) && Writes(ms, ms[0].key);
  }

  lemma {:induction false} StaticsHead(payer: PublicKey, ixs: seq<Option<Instruction>>, n: nat, keep: PublicKey -> bool)
    requires n <= |ixs| && Present(ixs)
    ensures var ms := StaticMentions(payer, ixs, n, keep);
            |ms| > 0 && ms[0] == Mention(payer, true, true)
  {
    if n > 0 {
      StaticsHead(payer, ixs, n - 1, keep);
    }
  }

  /** A static index grants its key the roles of its static mentions, so its own unless it has moved ones too. */
  lemma StaticGranted(payer: PublicKey, ixs: seq<Option<Instruction>>, blockhash: Hash, tables: seq<LookupTable>,
                      i: nat)
    requires V0Message(payer, ixs, blockhash, tables).Success? && Present(ixs)
    requires |SignerSet(payer, ixs)| <= 255 && i < |StaticKeys(Statics(payer, ixs, tables))|
    ensures var m, k := V0Message(payer, ixs, blockhash, tables).value, StaticKeys(Statics(payer, ixs, tables))[i];
            && (IndexSigns(m, i) <==> MustSign(payer, ixs, k))
            && (Grants(m, payer, ixs, i, k) <==> StaticRoles(payer, ixs, tables, k))
  {
    hide V0Message, Statics, Moved, StaticKeys, HeaderOf, Bucket, MustSign, MustWrite, SignerSet, IndexSigns,
      IndexWrites;
    V0Layout(payer, ixs, blockhash, tables);
    SignersOf(payer, ixs, tables);
    var ms := Statics(payer, ixs, tables);
    StaticRolesHold(payer, ixs, tables, StaticKeys(ms)[i]);
    StaticIndexRole(ms, V0Message(payer, ixs, blockhash, tables).value, i);
  }

  /** An index past the static keys does not sign, and writes as its key must. */
  lemma TableGranted(payer: PublicKey, ixs: seq<Option<Instruction>>, blockhash: Hash, tables: seq<LookupTable>,
                     p: nat)
    requires V0Message(payer, ixs, blockhash, tables).Success? && Present(ixs)
    requires |SignerSet(payer, ixs)| <= 255
    requires |StaticKeys(Statics(payer, ixs, tables))| <= p < |Space(payer, ixs, tables)|
    ensures Grants(V0Message(payer, ixs, blockhash, tables).value, payer, ixs, p, Space(payer, ixs, tables)[p])
  {
    hide V0Message, Statics, Moved, StaticKeys, HeaderOf, Bucket, MustSign, MustWrite, SignerSet, Lookups, Sites,
      WritableCount, Space;
    var k, moved := Space(payer, ixs, tables)[p], Moved(payer, ixs, tables);
    V0Layout(payer, ixs, blockhash, tables);
    SignersOf(payer, ixs, tables);
    BucketsInside(Statics(payer, ixs, tables));
    SpaceSite(payer, ixs, tables, p);
    MovedIsRouted(payer, ixs, tables, k);
    MovedRoles(payer, ixs, tables, k);
    WritableSites(tables, moved, |tables|);
  }

  lemma MovedIsRouted(payer: PublicKey, ixs: seq<Option<Instruction>>, tables: seq<LookupTable>, k: PublicKey)
    requires Present(ixs) && Mentioned(Moved(payer, ixs, tables), k)
    ensures Routed(payer, ixs, tables, k)
  {
    MetaMentionsKept(ixs, |ixs|, (x: PublicKey) => Routed(payer, ixs, tables, x), k);
  }

  /** The index of a referenced key, or of the payer, grants it its roles. */
  lemma KeyGranted(payer: PublicKey, ixs: seq<Option<Instruction>>, blockhash: Hash, tables: seq<LookupTable>,
                   k: PublicKey)
    requires V0Message(payer, ixs, blockhash, tables).Success? && Present(ixs)
    requires |SignerSet(payer, ixs)| <= 255
    requires Referenced(ixs, k) || k == payer
    ensures k in IndexOf(payer, ixs, tables)
    ensures Grants(V0Message(payer, ixs, blockhash, tables).value, payer, ixs, IndexOf(payer, ixs, tables)[k], k)
  {
    hide V0Message, Statics, Supplied, StaticKeys, Grants, SignerSet, Referenced, Mentioned, Routed, IndexOf;
    ReferencedIndexed(payer, ixs, tables, k);
    var i := IndexOf(payer, ixs, tables)[k];
    if i < |StaticKeys(Statics(payer, ixs, tables))| {
      StaticOnly(payer, ixs, tables, k);
      StaticGranted(payer, ixs, blockhash, tables, i);
    } else {
      TableGranted(payer, ixs, blockhash, tables, i);
    }
  }

  /** The indices that sign are static, and their keys must sign. */
  lemma SignersAreStatic(payer: PublicKey, ixs: seq<Option<Instruction>>, blockhash: Hash, tables: seq<LookupTable>,
                         p: nat)
    requires V0Message(payer, ixs, blockhash, tables).Success? && Present(ixs)
    requires |SignerSet(payer, ixs)| <= 255 && IndexSigns(V0Message(payer, ixs, blockhash, tables).value, p)
    ensures var m := V0Message(payer, ixs, blockhash, tables).value;
            p < |m.accountKeys| && MustSign(payer, ixs, m.accountKeys[p])
  {
    hide V0Message, Statics, Moved, StaticKeys, HeaderOf, Bucket, MustSign, SignerSet, Lookups;
    V0Layout(payer, ixs, blockhash, tables);
    SignersOf(payer, ixs, tables);
    BucketsInside(Statics(payer, ixs, tables));
    StaticGranted(payer, ixs, blockhash, tables, p);
  }

  lemma BucketsInside(ms: seq<Mention>)
    requires |Bucket(ms, 0)| + |Bucket(ms, 1)| <= 255
    ensures HeaderOf(ms).numRequiredSignatures <= |StaticKeys(ms)|
  {
  }

  lemma StaticOnly(payer: PublicKey, ixs: seq<Option<Instruction>>, tables: seq<LookupTable>, k: PublicKey)
    requires Present(ixs)
    requires !(Routed(payer, ixs, tables, k) && Mentioned(MetaMentions(ixs, |ixs|, KeepAll), k))
    ensures StaticRoles(payer, ixs, tables, k)
  {
    StaticMentionsKept(payer, ixs, |ixs|, (x: PublicKey) => !Routed(payer, ixs, tables, x), k);
    MentionedIfRole(MetaMentions(ixs, |ixs|, KeepAll), k);
  }

  lemma MovedRoles(payer: PublicKey, ixs: seq<Option<Instruction>>, tables: seq<LookupTable>, k: PublicKey)
    requires Present(ixs) && Routed(payer, ixs, tables, k)
    ensures !MustSign(payer, ixs, k)
    ensures Writes(Moved(payer, ixs, tables), k) <==> MustWrite(payer, ixs, k)
  {
    MetaMentionsKept(ixs, |ixs|, (x: PublicKey) => Routed(payer, ixs, tables, x), k);
  }

  /**
   Privileges are exact precisely when at most 255 distinct keys must sign; at 256 the signature
   count wraps to zero and even the payer is no longer a signer.
   */
  lemma PrivilegesAreExact(payer: PublicKey, ixs: seq<Option<Instruction>>, blockhash: Hash, tables: seq<LookupTable>)
    requires V0Message(payer, ixs, blockhash, tables).Success?
    ensures Present(ixs)
    ensures PrivilegesExact(V0Message(payer, ixs, blockhash, tables).value, payer, ixs) <==>
            |SignerSet(payer, ixs)| <= 255
  {
    V0SucceedsExactly(payer, ixs, blockhash, tables);
    if |SignerSet(payer, ixs)| <= 255 {
      FewSignersExact(payer, ixs, blockhash, tables);
    } else {
      SignersWrap(payer, ixs, blockhash, tables);
    }
  }

  lemma FewSignersExact(payer: PublicKey, ixs: seq<Option<Instruction>>, blockhash: Hash, tables: seq<LookupTable>)
    requires V0Message(payer, ixs, blockhash, tables).Success? && Present(ixs) && |SignerSet(payer, ixs)| <= 255
    ensures PrivilegesExact(V0Message(payer, ixs, blockhash, tables).value, payer, ixs)
  {
    hide *;
    PayerGranted(payer, ixs, blockhash, tables);
    SigningStatic(payer, ixs, blockhash, tables);
    AllUsesGranted(payer, ixs, blockhash, tables);
    var m := V0Message(payer, ixs, blockhash, tables).value;
    ExactFromParts(m, payer, ixs);
  }

  lemma ExactFromParts(m: Message, payer: PublicKey, ixs: seq<Option<Instruction>>)
    requires Present(ixs) && |m.accountKeys| > 0 && m.accountKeys[0] == payer && Grants(m, payer, ixs, 0, payer)
    requires SigningIsStatic(m, payer, ixs) && UsesGranted(m, payer, ixs)
    ensures PrivilegesExact(m, payer, ixs)
  {
  }

  lemma SigningStatic(payer: PublicKey, ixs: seq<Option<Instruction>>, blockhash: Hash, tables: seq<LookupTable>)
    requires V0Message(payer, ixs, blockhash, tables).Success? && Present(ixs) && |SignerSet(payer, ixs)| <= 255
    ensures SigningIsStatic(V0Message(payer, ixs, blockhash, tables).value, payer, ixs)
  {
    hide V0Message, SignerSet, MustSign, IndexSigns;
    var m := V0Message(payer, ixs, blockhash, tables).value;
    forall p: nat | IndexSigns(m, p) ensures p < |m.accountKeys| && MustSign(payer, ixs, m.accountKeys[p]) {
      SignersAreStatic(payer, ixs, blockhash, tables, p);
    }
  }

  lemma AllUsesGranted(payer: PublicKey, ixs: seq<Option<Instruction>>, blockhash: Hash, tables: seq<LookupTable>)
    requires V0Message(payer, ixs, blockhash, tables).Success? && Present(ixs) && |SignerSet(payer, ixs)| <= 255
    ensures UsesGranted(V0Message(payer, ixs, blockhash, tables).value, payer, ixs)
  {
    hide V0Message, SignerSet, Grants, Space, IndexOf, Compiles, KeysIndexed, UseGranted;
    var m := V0Message(payer, ixs, blockhash, tables).value;
    V0Compiled(payer, ixs, blockhash, tables);
    forall i | 0 <= i < |ixs| ensures UseGranted(m, payer, ixs, m.instructions[i], ixs[i].value) {
      OneUseGranted(payer, ixs, blockhash, tables, i);
    }
  }

  lemma OneUseGranted(payer: PublicKey, ixs: seq<Option<Instruction>>, blockhash: Hash, tables: seq<LookupTable>,
                      i: nat)
    requires V0Message(payer, ixs, blockhash, tables).Success? && Present(ixs) && |SignerSet(payer, ixs)| <= 255
    requires i < |ixs| && |V0Message(payer, ixs, blockhash, tables).value.instructions| == |ixs|
    ensures var m := V0Message(payer, ixs, blockhash, tables).value;
            UseGranted(m, payer, ixs, m.instructions[i], ixs[i].value)
  {
    hide V0Message, SignerSet, Grants, Space, IndexOf, KeysIndexed, Compiles;
    var m := V0Message(payer, ixs, blockhash, tables).value;
    V0Compiled(payer, ixs, blockhash, tables);
    CompiledLength(ixs[i].value, IndexOf(payer, ixs, tables), m.instructions[i]);
    ProgramGranted(payer, ixs, blockhash, tables, i);
    forall j | 0 <= j < |ixs[i].value.accounts|
      ensures Grants(m, payer, ixs, m.instructions[i].accounts[j], ixs[i].value.accounts[j].value.publicKey)
    {
      AccountGranted(payer, ixs, blockhash, tables, i, j);
    }
  }

  lemma CompiledLength(ix: Instruction, index: map<PublicKey, nat>, c: CompiledInstruction)
    requires MetasPresent(ix.accounts) && KeysIndexed(ix, index) && Compiles(ix, index, c)
    ensures |c.accounts| == |ix.accounts|
  {
  }

  /** Every instruction is compiled through the index of the whole space. */
  lemma V0Compiled(payer: PublicKey, ixs: seq<Option<Instruction>>, blockhash: Hash, tables: seq<LookupTable>)
    requires V0Message(payer, ixs, blockhash, tables).Success?
    ensures Present(ixs) && |Space(payer, ixs, tables)| <= 256
    ensures var m, index := V0Message(payer, ixs, blockhash, tables).value, IndexOf(payer, ixs, tables);
            && |m.instructions| == |ixs|
            && forall i :: 0 <= i < |ixs| ==>
                 KeysIndexed(ixs[i].value, index) && Compiles(ixs[i].value, index, m.instructions[i])
  {
    V0SucceedsExactly(payer, ixs, blockhash, tables);
    var index := IndexOf(payer, ixs, tables);
    forall i | 0 <= i < |ixs| ensures KeysIndexed(ixs[i].value, index) {
      AllIndexed(payer, ixs, tables, i);
    }
    CompileAllExact(ixs, |ixs|, index);
  }

  lemma ProgramGranted(payer: PublicKey, ixs: seq<Option<Instruction>>, blockhash: Hash, tables: seq<LookupTable>,
                       i: nat)
    requires V0Message(payer, ixs, blockhash, tables).Success? && Present(ixs) && |SignerSet(payer, ixs)| <= 255
    requires i < |ixs| && |V0Message(payer, ixs, blockhash, tables).value.instructions| == |ixs|
    ensures var m := V0Message(payer, ixs, blockhash, tables).value;
            Grants(m, payer, ixs, m.instructions[i].programIdIndex, ixs[i].value.programId)
  {
    hide V0Message, Grants, SignerSet, Space, IndexOf, Compiles, KeysIndexed, IsProgram, Mentioned;
    var k := ixs[i].value.programId;
    ProgramReferenced(ixs, i);
    V0Compiled(payer, ixs, blockhash, tables);
    KeyGranted(payer, ixs, blockhash, tables, k);
    ReferencedIndexed(payer, ixs, tables, k);
    var m := V0Message(payer, ixs, blockhash, tables).value;
    ProgramIndex(ixs[i].value, IndexOf(payer, ixs, tables), m.instructions[i]);
  }

  lemma ProgramReferenced(ixs: seq<Option<Instruction>>, i: nat)
    requires Present(ixs) && i < |ixs|
    ensures IsProgram(ixs, |ixs|, ixs[i].value.programId) && Referenced(ixs, ixs[i].value.programId)
  {
  }

  lemma AccountGranted(payer: PublicKey, ixs: seq<Option<Instruction>>, blockhash: Hash, tables: seq<LookupTable>,
                       i: nat, j: nat)
    requires V0Message(payer, ixs, blockhash, tables).Success? && Present(ixs) && |SignerSet(payer, ixs)| <= 255
    requires i < |ixs| && |V0Message(payer, ixs, blockhash, tables).value.instructions| == |ixs|
    requires j < |ixs[i].value.accounts|
    ensures var m := V0Message(payer, ixs, blockhash, tables).value;
            && j < |m.instructions[i].accounts|
            && Grants(m, payer, ixs, m.instructions[i].accounts[j], ixs[i].value.accounts[j].value.publicKey)
  {
    hide V0Message, Grants, SignerSet, Space, IndexOf, Compiles, KeysIndexed, IsProgram, Mentioned;
    var k := ixs[i].value.accounts[j].value.publicKey;
    MetaMember(ixs, |ixs|, i, j);
    V0Compiled(payer, ixs, blockhash, tables);
    KeyGranted(payer, ixs, blockhash, tables, k);
    ReferencedIndexed(payer, ixs, tables, k);
    var m := V0Message(payer, ixs, blockhash, tables).value;
    AccountIndex(ixs[i].value, IndexOf(payer, ixs, tables), m.instructions[i], j);
  }

  /**
   With at most 255 signers, every index of the space grants its key's roles, used by an instruction or
   not, if and only if no program that is also a routed account must be written: of the two indices of
   such a key, the static one only reads.
   */
  lemma EveryIndexExactly(payer: PublicKey, ixs: seq<Option<Instruction>>, blockhash: Hash, tables: seq<LookupTable>)
    requires V0Message(payer, ixs, blockhash, tables).Success? && Present(ixs) && |SignerSet(payer, ixs)| <= 255
    ensures var m, space := V0Message(payer, ixs, blockhash, tables).value, Space(payer, ixs, tables);
            (forall p :: 0 <= p < |space| ==> Grants(m, payer, ixs, p, space[p])) <==>
            !exists k :: Doubled(payer, ixs, tables, k) && MustWrite(payer, ixs, k)
  {
    hide V0Message, Grants, SignerSet, Statics, Doubled, MustWrite, StaticRoles, StaticKeys, Supplied;
    var m, space := V0Message(payer, ixs, blockhash, tables).value, Space(payer, ixs, tables);
    var fixed := StaticKeys(Statics(payer, ixs, tables));
    if k :| Doubled(payer, ixs, tables, k) && MustWrite(payer, ixs, k) {
      var i, p := DoubledTwice(payer, ixs, tables, k);
      StaticGranted(payer, ixs, blockhash, tables, i);
      DoubledRoles(payer, ixs, tables, k);
      assert !Grants(m, payer, ixs, i, space[i]);
    } else {
      forall p | 0 <= p < |space| ensures Grants(m, payer, ixs, p, space[p]) {
        if p < |fixed| {
          StaticGranted(payer, ixs, blockhash, tables, p);
          StaticRolesUnlessDoubled(payer, ixs, tables, p);
        } else {
          TableGranted(payer, ixs, blockhash, tables, p);
        }
      }
    }
  }

  /** The static mentions of a doubled key are those of a program: they neither sign nor write. */
  lemma DoubledRoles(payer: PublicKey, ixs: seq<Option<Instruction>>, tables: seq<LookupTable>, k: PublicKey)
    requires Present(ixs) && Doubled(payer, ixs, tables, k)
    ensures StaticRoles(payer, ixs, tables, k) <==> !MustWrite(payer, ixs, k)
  {
    hide Mentioned, Signs, Writes, IsProgram, Find;
    StaticMentionsKept(payer, ixs, |ixs|, (x: PublicKey) => !Routed(payer, ixs, tables, x), k);
  }

  lemma StaticRolesUnlessDoubled(payer: PublicKey, ixs: seq<Option<Instruction>>, tables: seq<LookupTable>, i: nat)
    requires Present(ixs) && i < |StaticKeys(Statics(payer, ixs, tables))|
    ensures var k := StaticKeys(Statics(payer, ixs, tables))[i];
            StaticRoles(payer, ixs, tables, k) || (Doubled(payer, ixs, tables, k) && MustWrite(payer, ixs, k))
  {
    hide Mentioned, Signs, Writes, IsProgram, Find, StaticKeys, Statics, Doubled, MustWrite, StaticRoles;
    var k := StaticKeys(Statics(payer, ixs, tables))[i];
    if Routed(payer, ixs, tables, k) && Mentioned(MetaMentions(ixs, |ixs|, KeepAll), k) {
      RoutedStaticIsDoubled(payer, ixs, tables, k);
      DoubledRoles(payer, ixs, tables, k);
    } else {
      StaticOnly(payer, ixs, tables, k);
    }
  }

  lemma RoutedStaticIsDoubled(payer: PublicKey, ixs: seq<Option<Instruction>>, tables: seq<LookupTable>, k: PublicKey)
    requires Present(ixs) && Routed(payer, ixs, tables, k) && k in StaticKeys(Statics(payer, ixs, tables))
    requires Mentioned(MetaMentions(ixs, |ixs|, KeepAll), k)
    ensures Doubled(payer, ixs, tables, k)
  {
    hide Mentioned, Signs, Writes, IsProgram, Find, StaticKeys;
    StaticKeysContents(Statics(payer, ixs, tables), k);
    StaticMentionsKept(payer, ixs, |ixs|, (x: PublicKey) => !Routed(payer, ixs, tables, x), k);
  }

  lemma PayerGranted(payer: PublicKey, ixs: seq<Option<Instruction>>, blockhash: Hash, tables: seq<LookupTable>)
    requires V0Message(payer, ixs, blockhash, tables).Success? && Present(ixs)
    requires |SignerSet(payer, ixs)| <= 255
    ensures var m := V0Message(payer, ixs, blockhash, tables).value;
            |m.accountKeys| > 0 && m.accountKeys[0] == payer && Grants(m, payer, ixs, 0, payer)
  {
    hide V0Message, Statics, StaticKeys, HeaderOf, Bucket, Grants, StaticRoles, SignerSet;
    V0Layout(payer, ixs, blockhash, tables);
    SignersOf(payer, ixs, tables);
    StaticGranted(payer, ixs, blockhash, tables, 0);
    PayerNotRouted(payer, ixs, tables);
    StaticRolesHold(payer, ixs, tables, payer);
  }

  lemma PayerNotRouted(payer: PublicKey, ixs: seq<Option<Instruction>>, tables: seq<LookupTable>)
    requires Present(ixs)
    ensures !Routed(payer, ixs, tables, payer)
  {
    hide Find;
  }

  lemma SignersWrap(payer: PublicKey, ixs: seq<Option<Instruction>>, blockhash: Hash, tables: seq<LookupTable>)
    requires V0Message(payer, ixs, blockhash, tables).Success? && Present(ixs)
    requires |SignerSet(payer, ixs)| > 255
    ensures !PrivilegesExact(V0Message(payer, ixs, blockhash, tables).value, payer, ixs)
  {
    var m, ms := V0Message(payer, ixs, blockhash, tables).value, Statics(payer, ixs, tables);
    assert m.accountKeys == StaticKeys(ms) && m.header == HeaderOf(ms) && |m.accountKeys| <= 256;
    hide V0Message;
    SignersOf(payer, ixs, tables);
    hide *;
    SignersFill(ms);
    NoSignersNoPrivileges(m, payer, ixs);
  }

  lemma SignersFill(ms: seq<Mention>)
    requires |StaticKeys(ms)| <= 256 && |Bucket(ms, 0)| + |Bucket(ms, 1)| > 255
    ensures HeaderOf(ms).numRequiredSignatures == 0
  {
    OffsetsOf(ms);
    hide StaticKeys, Bucket;
  }

  lemma NoSignersNoPrivileges(m: Message, payer: PublicKey, ixs: seq<Option<Instruction>>)
    requires Present(ixs) && m.header.numRequiredSignatures == 0
    ensures !PrivilegesExact(m, payer, ixs)
  {
    assert !Grants(m, payer, ixs, 0, payer);
  }

  // ---------------------------------------------------------------- legacy messages

  lemma {:induction false} StaticMentionsAgree(payer: PublicKey, ixs: seq<Option<Instruction>>, n: nat,
                                               keep: PublicKey -> bool)
    requires n <= |ixs| && Present(ixs) && forall k :: keep(k)
    ensures StaticMentions(payer, ixs, n, keep) == StaticMentions(payer, ixs, n, KeepAll)
  {
    if n > 0 {
      StaticMentionsAgree(payer, ixs, n - 1, keep);
      KeptAgree(ixs[n - 1].value.accounts, |ixs[n - 1].value.accounts|, keep);
    }
  }

  lemma {:induction false} KeptAgree(metas: seq<Option<AccountMeta>>, n: nat, keep: PublicKey -> bool)
    requires n <= |metas| && MetasPresent(metas) && forall k :: keep(k)
    ensures Kept(metas, n, keep) == Kept(metas, n, KeepAll)
  {
    if n > 0 {
      KeptAgree(metas, n - 1, keep);
    }
  }

  /**
   Without tables the v0 builder succeeds on the same inputs as the legacy builder and produces the
   same keys, header and instructions; every theorem about v0 messages thus covers legacy ones.
   */
  lemma LegacyIsV0WithoutTables(payer: PublicKey, ixs: seq<Option<Instruction>>, blockhash: Hash)
    ensures V0Message(payer, ixs, blockhash, []) ==
            match LegacyMessage(payer, ixs, blockhash)
            case Success(m) => Success(m.(version := VERSION_0))
            case Failure(e) => Failure(e)
  {
    NoNilIsPresent(ixs, |ixs|);
    assert ixs[..|ixs|] == ixs;
    if |ixs| > 0 && Present(ixs) {
      StaticMentionsAgree(payer, ixs, |ixs|, (k: PublicKey) => !Routed(payer, ixs, [], k));
      var moved := Moved(payer, ixs, []);
      assert Sites([], moved, 0, true) == [] && Sites([], moved, 0, false) == [];
      assert Space(payer, ixs, []) == StaticKeys(Statics(payer, ixs, []));
    }
  }
}

/**
 What the builders return, said over the instructions and tables they are given: roles, refusals, the
 order of the keys, which keys move into tables, and which lookups are listed.
 */
module BuilderLaws {
  import opened Wire
  import opened Message
  import opened Ordering
  import opened StaticEntries
  import opened Builder
  import opened Compilation
  import opened CompilerTheorems
  import opened Privileges
  import opened ReferenceOrder

  // ---------------------------------------------------------------- roles

  predicate IsMeta(ixs: seq<Option<Instruction>>, i: nat, j: nat)
    requires Present(ixs)
  {
    i < |ixs| && j < |ixs[i].value.accounts|
  }

  function MetaAt(ixs: seq<Option<Instruction>>, i: nat, j: nat): (meta: AccountMeta)
    requires Present(ixs) && IsMeta(ixs, i, j)
  {
    ixs[i].value.accounts[j].value
  }

  lemma {:induction false} KeptRoles(metas: seq<Option<AccountMeta>>, n: nat, k: PublicKey)
    requires n <= |metas| && MetasPresent(metas)
    ensures var ms := Kept(metas, n, KeepAll);
            && (Signs(ms, k) <==> exists j :: 0 <= j < n && metas[j].value.publicKey == k && metas[j].value.isSigner)
            && (Writes(ms, k) <==>
                exists j :: 0 <= j < n && metas[j].value.publicKey == k && metas[j].value.isWritable)
            && (Mentioned(ms, k) <==> exists j :: 0 <= j < n && metas[j].value.publicKey == k)
  {
    if n > 0 {
      KeptRoles(metas, n - 1, k);
      var meta := metas[n - 1].value;
      MentionsSnoc(Kept(metas, n - 1, KeepAll), Mention(meta.publicKey, meta.isSigner, meta.isWritable), k);
      hide Signs, Writes, Mentioned;
    }
  }

  /** One of the first n instructions has an account meta for k; one that signs; one that writes. */
  ghost predicate AccountIn(ixs: seq<Option<Instruction>>, n: nat, k: PublicKey)
    requires Present(ixs)
  {
    exists i: nat, j: nat :: i < n && IsMeta(ixs, i, j) && MetaAt(ixs, i, j).publicKey == k
  }

  ghost predicate SignerIn(ixs: seq<Option<Instruction>>, n: nat, k: PublicKey)
    requires Present(ixs)
  {
    exists i: nat, j: nat ::
      i < n && IsMeta(ixs, i, j) && MetaAt(ixs, i, j).publicKey == k && MetaAt(ixs, i, j).isSigner
  }

  ghost predicate WritableIn(ixs: seq<Option<Instruction>>, n: nat, k: PublicKey)
    requires Present(ixs)
  {
    exists i: nat, j: nat ::
      i < n && IsMeta(ixs, i, j) && MetaAt(ixs, i, j).publicKey == k && MetaAt(ixs, i, j).isWritable
  }

  lemma OneMore(ixs: seq<Option<Instruction>>, n: nat, k: PublicKey)
    requires 0 < n <= |ixs| && Present(ixs)
    ensures var metas := ixs[n - 1].value.accounts;
            && (AccountIn(ixs, n, k) <==>
                AccountIn(ixs, n - 1, k) || exists j :: 0 <= j < |metas| && metas[j].value.publicKey == k)
            && (SignerIn(ixs, n, k) <==>
                || SignerIn(ixs, n - 1, k)
                || exists j :: 0 <= j < |metas| && metas[j].value.publicKey == k && metas[j].value.isSigner)
            && (WritableIn(ixs, n, k) <==>
                || WritableIn(ixs, n - 1, k)
                || exists j :: 0 <= j < |metas| && metas[j].value.publicKey == k && metas[j].value.isWritable)
  {
    var metas := ixs[n - 1].value.accounts;
    forall j: nat | j < |metas| ensures IsMeta(ixs, n - 1, j) && MetaAt(ixs, n - 1, j) == metas[j].value {
    }
  }

  /** The roles gathered from the first n instructions are those of their account metas. */
  lemma {:induction false} MetaRoles(ixs: seq<Option<Instruction>>, n: nat, k: PublicKey)
    requires n <= |ixs| && Present(ixs)
    ensures var ms := MetaMentions(ixs, n, KeepAll);
            && (Signs(ms, k) <==> SignerIn(ixs, n, k)) && (Writes(ms, k) <==> WritableIn(ixs, n, k))
            && (Mentioned(ms, k) <==> AccountIn(ixs, n, k))
  {
    if n > 0 {
      MetaRoles(ixs, n - 1, k);
      var metas := ixs[n - 1].value.accounts;
      KeptRoles(metas, |metas|, k);
      MentionsCat(MetaMentions(ixs, n - 1, KeepAll), Kept(metas, |metas|, KeepAll), k);
      hide Signs, Writes, Mentioned, Kept, SignerIn, WritableIn, AccountIn;
      OneMore(ixs, n, k);
    }
  }

  /** Must sign: the payer and the keys of signing metas. Must be written: likewise. */
  lemma RolesExactly(payer: PublicKey, ixs: seq<Option<Instruction>>, k: PublicKey)
    requires Present(ixs)
    ensures MustSign(payer, ixs, k) <==> k == payer || SignerIn(ixs, |ixs|, k)
    ensures MustWrite(payer, ixs, k) <==> k == payer || WritableIn(ixs, |ixs|, k)
  {
    hide Signs, Writes, Mentioned, MetaMentions, SignerIn, WritableIn, AccountIn;
    MetaRoles(ixs, |ixs|, k);
  }

  // ---------------------------------------------------------------- tables

  predicate IsSlot(tables: seq<LookupTable>, t: nat, s: nat) {
    t < |tables| && s < |tables[t].addresses|
  }

  function AddressAt(tables: seq<LookupTable>, t: nat, s: nat): (k: PublicKey)
    requires IsSlot(tables, t, s)
  {
    tables[t].addresses[s]
  }

  lemma {:induction false} FirstIndexExactly(xs: seq<PublicKey>, n: nat, k: PublicKey)
    requires n <= |xs|
    ensures FirstIndex(xs, n, k).None? <==> forall i :: 0 <= i < n ==> xs[i] != k
    ensures FirstIndex(xs, n, k).Some? ==> forall i :: 0 <= i < FirstIndex(xs, n, k).value ==> xs[i] != k
  {
    if n > 0 {
      FirstIndexExactly(xs, n - 1, k);
    }
  }

  lemma {:induction false} LocateExactly(tables: seq<LookupTable>, n: nat, k: PublicKey)
    requires n <= |tables|
    ensures Locate(tables, n, k).None? ==>
              forall t: nat, s: nat :: t < n && IsSlot(tables, t, s) ==> AddressAt(tables, t, s) != k
    ensures Locate(tables, n, k).Some? ==>
              var site := Locate(tables, n, k).value;
              && site.table < n
              && forall t: nat, s: nat :: t < n && IsSlot(tables, t, s) && AddressAt(tables, t, s) == k ==>
                   site.table < t || (site.table == t && site.slot <= s)
  {
    if n > 0 {
      LocateExactly(tables, n - 1, k);
      FirstIndexExactly(tables[n - 1].addresses, |tables[n - 1].addresses|, k);
      var here := FirstIndex(tables[n - 1].addresses, |tables[n - 1].addresses|, k);
      forall t: nat, s: nat | t == n - 1 && IsSlot(tables, t, s) && AddressAt(tables, t, s) == k
        ensures here.Some? && here.value <= s
      {
        assert tables[n - 1].addresses[s] == k;
      }
    }
  }

  /** The first matching slot of the first matching table wins. */
  lemma FirstMatchWins(tables: seq<LookupTable>, k: PublicKey)
    ensures Find(tables, k).None? <==> forall t: nat, s: nat :: IsSlot(tables, t, s) ==> AddressAt(tables, t, s) != k
    ensures Find(tables, k).Some? ==>
              var site := Find(tables, k).value;
              && IsSlot(tables, site.table, site.slot) && AddressAt(tables, site.table, site.slot) == k
              && forall t: nat, s: nat :: IsSlot(tables, t, s) && AddressAt(tables, t, s) == k ==>
                   site.table < t || (site.table == t && site.slot <= s)
  {
    LocateExactly(tables, |tables|, k);
    if Find(tables, k).Some? {
      var site := Find(tables, k).value;
      assert IsSlot(tables, site.table, site.slot) && AddressAt(tables, site.table, site.slot) == k;
    }
  }

  /** The key stands in some table. */
  ghost predicate Listed(tables: seq<LookupTable>, k: PublicKey) {
    exists t: nat, s: nat :: IsSlot(tables, t, s) && AddressAt(tables, t, s) == k
  }

  /** Some account meta requires its signature, or it pays. */
  ghost predicate Signer(payer: PublicKey, ixs: seq<Option<Instruction>>, k: PublicKey)
    requires Present(ixs)
  {
    k == payer || SignerIn(ixs, |ixs|, k)
  }

  /** Routing: exactly the listed keys that nobody must sign for. */
  lemma RoutedExactly(payer: PublicKey, ixs: seq<Option<Instruction>>, tables: seq<LookupTable>, k: PublicKey)
    requires Present(ixs)
    ensures Routed(payer, ixs, tables, k) <==> Listed(tables, k) && !Signer(payer, ixs, k)
  {
    hide Find, MustSign;
    FirstMatchWins(tables, k);
    RolesExactly(payer, ixs, k);
  }

  /**
   The static keys of a compiled message: the payer, every program, and every account that no table
   lists or that must sign. All other accounts have moved into tables.
   */
  lemma StaticKeysExactly(payer: PublicKey, ixs: seq<Option<Instruction>>, blockhash: Hash, tables: seq<LookupTable>,
                          k: PublicKey)
    requires V0Message(payer, ixs, blockhash, tables).Success?
    ensures Present(ixs)
    ensures k in V0Message(payer, ixs, blockhash, tables).value.accountKeys <==>
            || k == payer
            || (exists i :: 0 <= i < |ixs| && ixs[i].value.programId == k)
            || (AccountIn(ixs, |ixs|, k) && !(Listed(tables, k) && !Signer(payer, ixs, k)))
  {
    hide V0Message, Routed, Listed, Signer, Mentioned, Signs, Writes, StaticKeys, MetaMentions, HeaderOf, AccountIn;
    V0Layout(payer, ixs, blockhash, tables);
    StaticKeysContents(Statics(payer, ixs, tables), k);
    StaticMentionsKept(payer, ixs, |ixs|, (x: PublicKey) => !Routed(payer, ixs, tables, x), k);
    RoutedExactly(payer, ixs, tables, k);
    MetaRoles(ixs, |ixs|, k);
  }

  // ---------------------------------------------------------------- order

  /** The roles of a static key: the metas of a key that moves do not count. */
  ghost predicate SameRole(payer: PublicKey, ixs: seq<Option<Instruction>>, keep: PublicKey -> bool, a: PublicKey,
                           b: PublicKey)
    requires Present(ixs)
  {
    && (Signed(payer, ixs, keep, a) <==> Signed(payer, ixs, keep, b))
    && (Written(payer, ixs, keep, a) <==> Written(payer, ixs, keep, b))
  }

  ghost predicate Signed(payer: PublicKey, ixs: seq<Option<Instruction>>, keep: PublicKey -> bool, k: PublicKey)
    requires Present(ixs)
  {
    k == payer
    || (keep(k) && SignerIn(ixs, |ixs|, k))
  }

  ghost predicate Written(payer: PublicKey, ixs: seq<Option<Instruction>>, keep: PublicKey -> bool, k: PublicKey)
    requires Present(ixs)
  {
    k == payer
    || (keep(k) && WritableIn(ixs, |ixs|, k))
  }

  lemma RoleIs(payer: PublicKey, ixs: seq<Option<Instruction>>, keep: PublicKey -> bool, k: PublicKey)
    requires Present(ixs)
    ensures RoleOf(StaticMentions(payer, ixs, |ixs|, keep), k) ==
            BucketOf(Signed(payer, ixs, keep, k), Written(payer, ixs, keep, k))
  {
    hide Signs, Writes, Mentioned, StaticMentions, MetaMentions, SignerIn, WritableIn, AccountIn;
    StaticMentionsKept(payer, ixs, |ixs|, keep, k);
    MetaRoles(ixs, |ixs|, k);
  }

  /** Keys of one role stand in the order of their first static references; roles stand in bucket order. */
  lemma KeysInOrder(payer: PublicKey, ixs: seq<Option<Instruction>>, keep: PublicKey -> bool, x: nat, y: nat, p: Place,
                    q: Place)
    requires Present(ixs)
    requires var keys := StaticKeys(StaticMentions(payer, ixs, |ixs|, keep));
             && x < |keys| && y < |keys| && x != y
             && FirstPlace(payer, ixs, keep, keys[x], p) && FirstPlace(payer, ixs, keep, keys[y], q)
    ensures var keys := StaticKeys(StaticMentions(payer, ixs, |ixs|, keep));
            var a, b := keys[x], keys[y];
            var s, t := BucketOf(Signed(payer, ixs, keep, a), Written(payer, ixs, keep, a)),
                        BucketOf(Signed(payer, ixs, keep, b), Written(payer, ixs, keep, b));
            x < y <==> s < t || (s == t && Before(p, q))
  {
    hide RoleOf, StaticMentions, StaticKeys, Signed, Written, FirstPlace, SeenAt, Mentioned, BucketOf;
    var ms := StaticMentions(payer, ixs, |ixs|, keep);
    var a, b := StaticKeys(ms)[x], StaticKeys(ms)[y];
    RoleIs(payer, ixs, keep, a);
    RoleIs(payer, ixs, keep, b);
    if x < y {
      StaticKeysOrdered(ms, x, y);
    } else {
      StaticKeysOrdered(ms, y, x);
    }
    ReferencesOrderKeys(payer, ixs, keep, a, p, b, q);
  }

  /**
   The order of the account keys of a v0 message, over its instructions: signer and written, signer,
   written, neither; and inside a role by the first reference that stays static.
   */
  lemma V0KeysInOrder(payer: PublicKey, ixs: seq<Option<Instruction>>, blockhash: Hash, tables: seq<LookupTable>,
                      keep: PublicKey -> bool, x: nat, y: nat, p: Place, q: Place)
    requires V0Message(payer, ixs, blockhash, tables).Success? && Present(ixs)
    requires forall k :: keep(k) <==> !(Listed(tables, k) && !Signer(payer, ixs, k))
    requires var keys := V0Message(payer, ixs, blockhash, tables).value.accountKeys;
             && x < |keys| && y < |keys| && x != y
             && FirstPlace(payer, ixs, keep, keys[x], p) && FirstPlace(payer, ixs, keep, keys[y], q)
    ensures var keys := V0Message(payer, ixs, blockhash, tables).value.accountKeys;
            var a, b := keys[x], keys[y];
            var s, t := BucketOf(Signed(payer, ixs, keep, a), Written(payer, ixs, keep, a)),
                        BucketOf(Signed(payer, ixs, keep, b), Written(payer, ixs, keep, b));
            x < y <==> s < t || (s == t && Before(p, q))
  {
    hide V0Message, Routed, Listed, Signer, StaticKeys, HeaderOf, Signed, Written, FirstPlace, BucketOf;
    V0Layout(payer, ixs, blockhash, tables);
    var stays := (k: PublicKey) => !Routed(payer, ixs, tables, k);
    forall k ensures keep(k) == stays(k) {
      RoutedExactly(payer, ixs, tables, k);
    }
    StaticMentionsSame(payer, ixs, |ixs|, keep, stays);
    assert Statics(payer, ixs, tables) == StaticMentions(payer, ixs, |ixs|, keep);
    KeysInOrder(payer, ixs, keep, x, y, p, q);
  }

  lemma {:induction false} KeptSame(metas: seq<Option<AccountMeta>>, n: nat, a: PublicKey -> bool, b: PublicKey -> bool)
    requires n <= |metas| && MetasPresent(metas) && forall k :: a(k) == b(k)
    ensures Kept(metas, n, a) == Kept(metas, n, b)
  {
    if n > 0 {
      KeptSame(metas, n - 1, a, b);
    }
  }

  lemma {:induction false} StaticMentionsSame(payer: PublicKey, ixs: seq<Option<Instruction>>, n: nat,
                                              a: PublicKey -> bool, b: PublicKey -> bool)
    requires n <= |ixs| && Present(ixs) && forall k :: a(k) == b(k)
    ensures StaticMentions(payer, ixs, n, a) == StaticMentions(payer, ixs, n, b)
  {
    if n > 0 {
      StaticMentionsSame(payer, ixs, n - 1, a, b);
      KeptSame(ixs[n - 1].value.accounts, |ixs[n - 1].value.accounts|, a, b);
    }
  }

  /** The same for a legacy message, where nothing moves. */
  lemma LegacyKeysInOrder(payer: PublicKey, ixs: seq<Option<Instruction>>, blockhash: Hash, x: nat, y: nat, p: Place,
                          q: Place)
    requires LegacyMessage(payer, ixs, blockhash).Success? && Present(ixs)
    requires var keys := LegacyMessage(payer, ixs, blockhash).value.accountKeys;
             && x < |keys| && y < |keys| && x != y
             && FirstPlace(payer, ixs, KeepAll, keys[x], p) && FirstPlace(payer, ixs, KeepAll, keys[y], q)
    ensures var keys := LegacyMessage(payer, ixs, blockhash).value.accountKeys;
            var a, b := keys[x], keys[y];
            var s, t := BucketOf(Signed(payer, ixs, KeepAll, a), Written(payer, ixs, KeepAll, a)),
                        BucketOf(Signed(payer, ixs, KeepAll, b), Written(payer, ixs, KeepAll, b));
            x < y <==> s < t || (s == t && Before(p, q))
  {
    hide StaticKeys, HeaderOf, Signed, Written, FirstPlace, BucketOf, CompileAll, Enter, StaticMentions;
    KeysInOrder(payer, ixs, KeepAll, x, y, p, q);
  }

  // ---------------------------------------------------------------- outcomes

  /** Instruction i is the first that holds a nil pointer: itself, or one of its account metas. */
  ghost predicate FirstNilAt(ixs: seq<Option<Instruction>>, i: nat) {
    i < |ixs| && Present(ixs[..i]) && (ixs[i].None? || !MetasPresent(ixs[i].value.accounts))
  }

  lemma {:induction false} FirstNilIs(ixs: seq<Option<Instruction>>, n: nat, i: nat)
    requires i < n <= |ixs| && FirstNilAt(ixs, i)
    ensures FirstNil(ixs, n) == Some(if ixs[i].None? then NilInstruction else NilAccountMeta)
  {
    NoNilIsPresent(ixs, n - 1);
    if i < n - 1 {
      FirstNilIs(ixs, n - 1, i);
    }
  }

  /** Every outcome of NewMessageV0, refusals in the order of their checks. */
  lemma V0Outcomes(payer: PublicKey, ixs: seq<Option<Instruction>>, blockhash: Hash, tables: seq<LookupTable>)
    ensures ixs == [] ==> V0Message(payer, ixs, blockhash, tables) == Failure(NoInstructions)
    ensures forall i: nat :: FirstNilAt(ixs, i) ==>
              V0Message(payer, ixs, blockhash, tables) ==
              Failure(if ixs[i].None? then NilInstruction else NilAccountMeta)
    ensures ixs != [] && Present(ixs) && |Space(payer, ixs, tables)| > 256 ==>
              V0Message(payer, ixs, blockhash, tables) == Failure(TooManyKeys)
    ensures ixs != [] && Present(ixs) && |Space(payer, ixs, tables)| <= 256
            && (exists i :: 0 <= i < |ixs| && ixs[i].value.data.None?) ==>
              V0Message(payer, ixs, blockhash, tables) == Failure(InstructionData)
    ensures V0Message(payer, ixs, blockhash, tables).Success? ==>
              var m := V0Message(payer, ixs, blockhash, tables).value;
              m.version == VERSION_0 && m.recentBlockhash == blockhash && m.config == None
  {
    hide CompileAll, Enter, StaticKeys, HeaderOf, Lookups, Supplied, FirstNil, Statics, Moved;
    forall i: nat | FirstNilAt(ixs, i)
      ensures V0Message(payer, ixs, blockhash, tables) ==
              Failure(if ixs[i].None? then NilInstruction else NilAccountMeta)
    {
      FirstNilIs(ixs, |ixs|, i);
    }
    if Present(ixs) {
      NoNilIsPresent(ixs, |ixs|);
      assert ixs[..|ixs|] == ixs;
      DataErrors(payer, ixs, tables);
    }
  }

  /** Over the whole index space, compiling can only fail for want of data. */
  lemma DataErrors(payer: PublicKey, ixs: seq<Option<Instruction>>, tables: seq<LookupTable>)
    requires Present(ixs)
    ensures (exists i :: 0 <= i < |ixs| && ixs[i].value.data.None?) ==>
              CompileAll(ixs, |ixs|, Enter(map[], Space(payer, ixs, tables), 0)) == Failure(InstructionData)
  {
    hide Space;
    var index := IndexOf(payer, ixs, tables);
    forall i | 0 <= i < |ixs| ensures KeysIndexed(ixs[i].value, index) {
      AllIndexed(payer, ixs, tables, i);
    }
    DataErrorsOf(ixs, |ixs|, index);
  }

  lemma {:induction false} DataErrorsOf(ixs: seq<Option<Instruction>>, n: nat, index: map<PublicKey, nat>)
    requires n <= |ixs| && Present(ixs) && forall i :: 0 <= i < n ==> KeysIndexed(ixs[i].value, index)
    ensures (exists i :: 0 <= i < n && ixs[i].value.data.None?) ==>
              CompileAll(ixs, n, index) == Failure(InstructionData)
    ensures (forall i :: 0 <= i < n ==> ixs[i].value.data.Some?) ==> CompileAll(ixs, n, index).Success?
  {
    if n > 0 {
      DataErrorsOf(ixs, n - 1, index);
      var ix := ixs[n - 1].value;
      CompileMetasExact(ix.accounts, |ix.accounts|, index);
    }
  }

  /** Every outcome of NewMessage. */
  lemma LegacyOutcomes(payer: PublicKey, ixs: seq<Option<Instruction>>, blockhash: Hash)
    ensures ixs == [] ==> LegacyMessage(payer, ixs, blockhash) == Failure(NoInstructions)
    ensures forall i: nat :: FirstNilAt(ixs, i) ==>
              LegacyMessage(payer, ixs, blockhash) == Failure(if ixs[i].None? then NilInstruction else NilAccountMeta)
    ensures ixs != [] && Present(ixs) && |Space(payer, ixs, [])| > 256 ==>
              LegacyMessage(payer, ixs, blockhash) == Failure(TooManyKeys)
    ensures ixs != [] && Present(ixs) && |Space(payer, ixs, [])| <= 256
            && (exists i :: 0 <= i < |ixs| && ixs[i].value.data.None?) ==>
              LegacyMessage(payer, ixs, blockhash) == Failure(InstructionData)
    ensures LegacyMessage(payer, ixs, blockhash).Success? ==>
              var m := LegacyMessage(payer, ixs, blockhash).value;
              m.version == VERSION_LEGACY && m.recentBlockhash == blockhash && m.lookups == [] && m.config == None
  {
    hide CompileAll, Enter, StaticKeys, HeaderOf, Lookups, Supplied, FirstNil, StaticMentions, V0Message, Space;
    forall i: nat | FirstNilAt(ixs, i)
      ensures LegacyMessage(payer, ixs, blockhash) ==
              Failure(if ixs[i].None? then NilInstruction else NilAccountMeta)
    {
      FirstNilIs(ixs, |ixs|, i);
    }
    V0Outcomes(payer, ixs, blockhash, []);
    LegacyIsV0WithoutTables(payer, ixs, blockhash);
  }

  // ---------------------------------------------------------------- lookups

  /** Slot s of table t is where k is found: no earlier slot or table lists it. */
  ghost predicate FirstListed(tables: seq<LookupTable>, k: PublicKey, t: nat, s: nat) {
    && IsSlot(tables, t, s) && AddressAt(tables, t, s) == k
    && forall u: nat, v: nat :: IsSlot(tables, u, v) && AddressAt(tables, u, v) == k ==> t < u || (t == u && s <= v)
  }

  /** Slot s of table t delivers an account of the instructions, written or only read. */
  ghost predicate Delivers(payer: PublicKey, ixs: seq<Option<Instruction>>, tables: seq<LookupTable>, t: nat, s: nat,
                           w: bool)
    requires Present(ixs)
  {
    && IsSlot(tables, t, s)
    && var k := AddressAt(tables, t, s);
       && FirstListed(tables, k, t, s) && AccountIn(ixs, |ixs|, k) && !Signer(payer, ixs, k)
       && (WritableIn(ixs, |ixs|, k) <==> w)
  }

  lemma FoundIsFirst(tables: seq<LookupTable>, k: PublicKey, t: nat, s: nat)
    ensures Find(tables, k) == Some(TableSlot(t, s)) <==> FirstListed(tables, k, t, s)
  {
    hide Find;
    FirstMatchWins(tables, k);
  }

  lemma SuppliesIs(payer: PublicKey, ixs: seq<Option<Instruction>>, tables: seq<LookupTable>, t: nat, s: nat, w: bool)
    requires Present(ixs) && t < |tables|
    ensures Supplies(tables, Moved(payer, ixs, tables), t, s, w) <==> Delivers(payer, ixs, tables, t, s, w)
  {
    hide Find, FirstListed, AccountIn, SignerIn, WritableIn, Mentioned, Writes, Routed, MetaMentions, Listed;
    if s < |tables[t].addresses| {
      var k := AddressAt(tables, t, s);
      FoundIsFirst(tables, k, t, s);
      MetaMentionsKept(ixs, |ixs|, (x: PublicKey) => Routed(payer, ixs, tables, x), k);
      MetaRoles(ixs, |ixs|, k);
      RoutedExactly(payer, ixs, tables, k);
      ListedHere(tables, k, t, s);
    }
  }

  lemma ListedHere(tables: seq<LookupTable>, k: PublicKey, t: nat, s: nat)
    requires IsSlot(tables, t, s) && AddressAt(tables, t, s) == k
    ensures Listed(tables, k)
  {
  }

  /** The bytes bs are, in ascending order, the slots of table t that deliver a w account. */
  ghost predicate IndexesOf(payer: PublicKey, ixs: seq<Option<Instruction>>, tables: seq<LookupTable>, t: nat, w: bool,
                            bs: seq<byte>)
    requires Present(ixs)
  {
    exists ss: seq<nat> :: IndexSlots(payer, ixs, tables, t, w, bs, ss)
  }

  ghost predicate IndexSlots(payer: PublicKey, ixs: seq<Option<Instruction>>, tables: seq<LookupTable>, t: nat,
                             w: bool, bs: seq<byte>, ss: seq<nat>)
    requires Present(ixs)
  {
    && Increasing(ss) && |ss| == |bs| && (forall x :: 0 <= x < |bs| ==> bs[x] == ss[x] % 256)
    && forall s: nat :: s in ss <==> Delivers(payer, ixs, tables, t, s, w)
  }

  lemma SlotsListed(payer: PublicKey, ixs: seq<Option<Instruction>>, tables: seq<LookupTable>, t: nat, w: bool)
    requires Present(ixs) && t < |tables|
    ensures var ss := Slots(tables, Moved(payer, ixs, tables), t, w);
            IndexSlots(payer, ixs, tables, t, w, SlotBytes(ss), ss)
  {
    hide Supplies, Delivers, Moved;
    var ms := Moved(payer, ixs, tables);
    forall s: nat ensures s in Slots(tables, ms, t, w) <==> Delivers(payer, ixs, tables, t, s, w) {
      SlotsExact(tables, ms, t, w, s);
      SuppliesIs(payer, ixs, tables, t, s, w);
    }
    SlotsAscend(tables, ms, t, w);
  }

  /** Which table each of the lookups is for. */
  ghost predicate ListsTables(payer: PublicKey, ixs: seq<Option<Instruction>>, tables: seq<LookupTable>, n: nat,
                              lks: seq<AddressTableLookup>, ts: seq<nat>)
    requires Present(ixs) && n <= |tables|
  {
    && |ts| == |lks| && Increasing(ts)
    && (forall i :: 0 <= i < |ts| ==> ts[i] < n && ListsTable(payer, ixs, tables, ts[i], lks[i]))
    && forall t: nat, s: nat, w: bool :: t < n && Delivers(payer, ixs, tables, t, s, w) ==> t in ts
  }

  ghost predicate ListsTable(payer: PublicKey, ixs: seq<Option<Instruction>>, tables: seq<LookupTable>, t: nat,
                             lk: AddressTableLookup)
    requires Present(ixs) && t < |tables|
  {
    && lk.accountKey == tables[t].accountKey && |lk.writableIndexes| + |lk.readonlyIndexes| > 0
    && IndexesOf(payer, ixs, tables, t, true, lk.writableIndexes)
    && IndexesOf(payer, ixs, tables, t, false, lk.readonlyIndexes)
  }

  lemma {:induction false} LookupsOf(payer: PublicKey, ixs: seq<Option<Instruction>>, tables: seq<LookupTable>, n: nat)
    returns (ts: seq<nat>)
    requires Present(ixs) && n <= |tables|
    ensures ListsTables(payer, ixs, tables, n, Lookups(tables, Moved(payer, ixs, tables), n), ts)
  {
    hide Slots, Delivers, IndexSlots, Moved, SlotBytes;
    var ms := Moved(payer, ixs, tables);
    if n == 0 {
      ts := [];
    } else {
      ts := LookupsOf(payer, ixs, tables, n - 1);
      var w, r := Slots(tables, ms, n - 1, true), Slots(tables, ms, n - 1, false);
      SlotsListed(payer, ixs, tables, n - 1, true);
      SlotsListed(payer, ixs, tables, n - 1, false);
      if w == [] && r == [] {
        NothingDelivered(payer, ixs, tables, n - 1, w, r);
      } else {
        var lk := AddressTableLookup(tables[n - 1].accountKey, SlotBytes(w), SlotBytes(r));
        assert ListsTable(payer, ixs, tables, n - 1, lk);
        ListsOneMore(payer, ixs, tables, n, Lookups(tables, ms, n - 1), ts, lk);
        ts := ts + [n - 1];
      }
    }
  }

  lemma NothingDelivered(payer: PublicKey, ixs: seq<Option<Instruction>>, tables: seq<LookupTable>, t: nat,
                         w: seq<nat>, r: seq<nat>)
    requires Present(ixs) && w == [] && r == []
    requires IndexSlots(payer, ixs, tables, t, true, SlotBytes(w), w)
    requires IndexSlots(payer, ixs, tables, t, false, SlotBytes(r), r)
    ensures forall s: nat, b: bool :: !Delivers(payer, ixs, tables, t, s, b)
  {
    hide Delivers;
    forall s: nat, b: bool ensures !Delivers(payer, ixs, tables, t, s, b) {
      assert s !in if b then w else r;
    }
  }

  lemma ListsOneMore(payer: PublicKey, ixs: seq<Option<Instruction>>, tables: seq<LookupTable>, n: nat,
                     lks: seq<AddressTableLookup>, ts: seq<nat>, lk: AddressTableLookup)
    requires Present(ixs) && 0 < n <= |tables| && ListsTables(payer, ixs, tables, n - 1, lks, ts)
    requires ListsTable(payer, ixs, tables, n - 1, lk)
    ensures ListsTables(payer, ixs, tables, n, lks + [lk], ts + [n - 1])
  {
    hide Delivers, ListsTable;
    assert (ts + [n - 1])[|ts|] == n - 1;
  }

  /**
   The lookups of a compiled message: one for each table that delivers anything, in the order of the
   tables, under the table's key, with the delivering slots ascending, written apart from read.
   */
  lemma LookupsListed(payer: PublicKey, ixs: seq<Option<Instruction>>, blockhash: Hash, tables: seq<LookupTable>)
    returns (ts: seq<nat>)
    requires V0Message(payer, ixs, blockhash, tables).Success?
    ensures Present(ixs)
    ensures ListsTables(payer, ixs, tables, |tables|, V0Message(payer, ixs, blockhash, tables).value.lookups, ts)
  {
    hide V0Message, Lookups, ListsTables, StaticKeys, HeaderOf;
    V0Layout(payer, ixs, blockhash, tables);
    ts := LookupsOf(payer, ixs, tables, |tables|);
  }
}

/** The meaning of a message's index space: Message.ResolvedAccountKeys in message.go. */
module Resolution {
  import opened Wire
  import opened Message

  type Tables = map<PublicKey, seq<PublicKey>>

  /** The addresses that the first n indices select. */
  function Select(addrs: seq<PublicKey>, idxs: seq<byte>, n: nat): (r: Result<seq<PublicKey>>)
    requires n <= |idxs|
  {
    if n == 0 then Success([])
    else
      var ks :- Select(addrs, idxs, n - 1);
      if idxs[n - 1] < |addrs| then Success(ks + [addrs[idxs[n - 1]]]) else Failure(IndexOutOfRange)
  }

  function Indexes(lk: AddressTableLookup, writable: bool): (r: seq<byte>) {
    if writable then lk.writableIndexes else lk.readonlyIndexes
  }

  /** The writable, or the readonly, keys of the first n lookups. */
  function ResolveSide(lks: seq<AddressTableLookup>, n: nat, alts: Tables, writable: bool): (r: Result<seq<PublicKey>>)
    requires n <= |lks|
  {
    if n == 0 then Success([])
    else
      var ks :- ResolveSide(lks, n - 1, alts, writable);
      if lks[n - 1].accountKey !in alts then Failure(MissingTable)
      else
        var idxs := Indexes(lks[n - 1], writable);
        var more :- Select(alts[lks[n - 1].accountKey], idxs, |idxs|);
        Success(ks + more)
  }

  /** Static keys, then all writable lookups in order, then all readonly lookups in order. */
  function Resolve(m: Message, alts: Tables): (r: Result<seq<PublicKey>>) {
    if |m.lookups| == 0 then Success(m.accountKeys)
    else
      var w :- ResolveSide(m.lookups, |m.lookups|, alts, true);
      var r :- ResolveSide(m.lookups, |m.lookups|, alts, false);
      Success(m.accountKeys + w + r)
  }

  /** Where the header and the lookups place signers and writable accounts in the index space. */
  predicate IndexSigns(m: Message, i: nat) {
    i < m.header.numRequiredSignatures
  }

  function WritableCount(lks: seq<AddressTableLookup>): (r: nat) {
    if |lks| == 0 then 0
    else WritableCount(lks[..|lks| - 1]) + |lks[|lks| - 1].writableIndexes|
  }

  predicate IndexWrites(m: Message, i: nat) {
    var h := m.header;
    if i < h.numRequiredSignatures then i < h.numRequiredSignatures as int - h.numReadonlySignedAccounts as int
    else if i < |m.accountKeys| then i < |m.accountKeys| - h.numReadonlyUnsignedAccounts as int
    else i < |m.accountKeys| + WritableCount(m.lookups)
  }

  // ---------------------------------------------------------------- what is resolved, and what is refused

  /** The lookup's table is supplied, and has an entry for every index of the side. */
  predicate Good(lk: AddressTableLookup, alts: Tables, writable: bool) {
    lk.accountKey in alts
    && forall j: nat :: j < |Indexes(lk, writable)| ==> Indexes(lk, writable)[j] < |alts[lk.accountKey]|
  }

  /** The key that the lookup's index j selects. */
  function Selected(lk: AddressTableLookup, alts: Tables, writable: bool, j: nat): (r: PublicKey)
    requires Good(lk, alts, writable) && j < |Indexes(lk, writable)|
  {
    alts[lk.accountKey][Indexes(lk, writable)[j]]
  }

  /** Lookup k is the first that cannot be resolved. */
  predicate FirstBad(lks: seq<AddressTableLookup>, k: nat, alts: Tables, writable: bool)
    requires k < |lks|
  {
    !Good(lks[k], alts, writable) && forall j: nat :: j < k ==> Good(lks[j], alts, writable)
  }

  /** The number of keys that the first n lookups give. */
  function KeysBefore(lks: seq<AddressTableLookup>, n: nat, writable: bool): (r: nat)
    requires n <= |lks|
  {
    if n == 0 then 0 else KeysBefore(lks, n - 1, writable) + |Indexes(lks[n - 1], writable)|
  }

  lemma {:induction false} SelectExactly(addrs: seq<PublicKey>, idxs: seq<byte>, n: nat)
    requires n <= |idxs|
    ensures Select(addrs, idxs, n).Success? <==> forall i :: 0 <= i < n ==> idxs[i] < |addrs|
    ensures Select(addrs, idxs, n).Failure? ==> Select(addrs, idxs, n) == Failure(IndexOutOfRange)
    ensures Select(addrs, idxs, n).Success? ==> |Select(addrs, idxs, n).value| == n
    ensures Select(addrs, idxs, n).Success? ==>
              forall i :: 0 <= i < n ==> Select(addrs, idxs, n).value[i] == addrs[idxs[i]]
  {
    if n > 0 {
      SelectExactly(addrs, idxs, n - 1);
    }
  }

  /** One lookup more: its keys stand behind those before it. */
  lemma SideStep(lks: seq<AddressTableLookup>, n: nat, alts: Tables, writable: bool)
    requires n < |lks| && ResolveSide(lks, n, alts, writable).Success?
    ensures var r := ResolveSide(lks, n + 1, alts, writable);
            && (r.Success? <==> Good(lks[n], alts, writable))
            && (r.Failure? ==> r == Failure(if lks[n].accountKey in alts then IndexOutOfRange else MissingTable))
            && (r.Success? ==>
                  var before := ResolveSide(lks, n, alts, writable).value;
                  && before <= r.value && |r.value| == |before| + |Indexes(lks[n], writable)|
                  && forall j: nat :: j < |Indexes(lks[n], writable)| ==>
                       r.value[|before| + j] == Selected(lks[n], alts, writable, j))
  {
    if lks[n].accountKey in alts {
      var idxs := Indexes(lks[n], writable);
      SelectExactly(alts[lks[n].accountKey], idxs, |idxs|);
    }
  }

  /** The keys that one side of the lookup selects stand at p. */
  ghost predicate SelectedStand(keys: seq<PublicKey>, p: nat, lk: AddressTableLookup, alts: Tables, writable: bool) {
    && Good(lk, alts, writable) && p + |Indexes(lk, writable)| <= |keys|
    && forall j: nat :: j < |Indexes(lk, writable)| ==> keys[p + j] == Selected(lk, alts, writable, j)
  }

  /** Those of each of the first n lookups stand behind those of the lookups before it. */
  ghost predicate SideStands(keys: seq<PublicKey>, p: nat, lks: seq<AddressTableLookup>, n: nat, alts: Tables,
                             writable: bool)
    requires n <= |lks|
  {
    forall k: nat :: k < n ==> SelectedStand(keys, p + KeysBefore(lks, k, writable), lks[k], alts, writable)
  }

  lemma {:induction false} SideResolves(lks: seq<AddressTableLookup>, n: nat, alts: Tables, writable: bool)
    requires n <= |lks| && forall k: nat :: k < n ==> Good(lks[k], alts, writable)
    ensures ResolveSide(lks, n, alts, writable).Success?
    ensures |ResolveSide(lks, n, alts, writable).value| == KeysBefore(lks, n, writable)
    ensures SideStands(ResolveSide(lks, n, alts, writable).value, 0, lks, n, alts, writable)
  {
    hide Good, Indexes, ResolveSide, Selected, SideStands;
    if n == 0 {
      NothingResolved(lks, alts, writable);
    } else {
      SideResolves(lks, n - 1, alts, writable);
      SideStep(lks, n - 1, alts, writable);
      SideGrows(ResolveSide(lks, n, alts, writable).value, ResolveSide(lks, n - 1, alts, writable).value, lks, n - 1,
                alts, writable);
    }
  }

  lemma SideGrows(keys: seq<PublicKey>, before: seq<PublicKey>, lks: seq<AddressTableLookup>, n: nat, alts: Tables,
                  writable: bool)
    requires n < |lks| && Good(lks[n], alts, writable)
    requires before <= keys && |keys| == |before| + |Indexes(lks[n], writable)|
    requires forall j: nat :: j < |Indexes(lks[n], writable)| ==>
               keys[|before| + j] == Selected(lks[n], alts, writable, j)
    requires |before| == KeysBefore(lks, n, writable) && SideStands(before, 0, lks, n, alts, writable)
    ensures SideStands(keys, 0, lks, n + 1, alts, writable) && |keys| == KeysBefore(lks, n + 1, writable)
  {
    hide Good, Indexes, KeysBefore, Selected, SelectedStand;
    KeysAfter(lks, n, writable);
    StandsBetween([], before, keys[|before|..], lks, n, alts, writable);
    assert [] + before + keys[|before|..] == keys;
    LastStands(keys, before, lks[n], alts, writable);
  }

  lemma KeysAfter(lks: seq<AddressTableLookup>, n: nat, writable: bool)
    requires n < |lks|
    ensures KeysBefore(lks, n + 1, writable) == KeysBefore(lks, n, writable) + |Indexes(lks[n], writable)|
  {
  }

  lemma LastStands(keys: seq<PublicKey>, before: seq<PublicKey>, lk: AddressTableLookup, alts: Tables, writable: bool)
    requires Good(lk, alts, writable) && |keys| == |before| + |Indexes(lk, writable)|
    requires forall j: nat :: j < |Indexes(lk, writable)| ==> keys[|before| + j] == Selected(lk, alts, writable, j)
    ensures SelectedStand(keys, |before|, lk, alts, writable)
  {
    hide Good, Indexes, Selected;
  }

  lemma NothingResolved(lks: seq<AddressTableLookup>, alts: Tables, writable: bool)
    ensures ResolveSide(lks, 0, alts, writable) == Success([]) && SideStands([], 0, lks, 0, alts, writable)
    ensures KeysBefore(lks, 0, writable) == 0
  {
  }

  lemma SideFails(lks: seq<AddressTableLookup>, k: nat, alts: Tables, writable: bool)
    requires k < |lks| && FirstBad(lks, k, alts, writable)
    ensures ResolveSide(lks, |lks|, alts, writable)
            == Failure(if lks[k].accountKey in alts then IndexOutOfRange else MissingTable)
  {
    hide Good;
    SideResolves(lks, k, alts, writable);
    SideStep(lks, k, alts, writable);
    ResolveSideFails(lks, k + 1, |lks|, alts, writable);
  }

  lemma {:induction false} BadHasFirst(lks: seq<AddressTableLookup>, k: nat, alts: Tables, writable: bool)
    returns (f: nat)
    requires k < |lks| && !Good(lks[k], alts, writable)
    ensures f <= k && FirstBad(lks, f, alts, writable)
  {
    hide Good;
    if j: nat :| j < k && !Good(lks[j], alts, writable) {
      f := BadHasFirst(lks, j, alts, writable);
    } else {
      f := k;
    }
  }

  /**
   When every lookup's table is supplied and long enough, the index space is the static keys, then for
   each lookup in turn the keys its writable indices select, then for each those its readonly ones do.
   */
  lemma ResolvedLayout(m: Message, alts: Tables)
    requires forall lk, w :: lk in m.lookups ==> Good(lk, alts, w)
    ensures Resolve(m, alts).Success?
    ensures var keys, s, n := Resolve(m, alts).value, |m.accountKeys|, |m.lookups|;
            var w := KeysBefore(m.lookups, n, true);
            && m.accountKeys <= keys && |keys| == s + w + KeysBefore(m.lookups, n, false)
            && SideStands(keys, s, m.lookups, n, alts, true)
            && SideStands(keys, s + w, m.lookups, n, alts, false)
  {
    hide Good, Indexes, ResolveSide, KeysBefore, Selected, SideStands;
    var n, keys := |m.lookups|, m.accountKeys;
    SideResolves(m.lookups, n, alts, true);
    SideResolves(m.lookups, n, alts, false);
    if n == 0 {
      NothingStands(m, alts, true);
      NothingStands(m, alts, false);
    } else {
      var w, r := ResolveSide(m.lookups, n, alts, true).value, ResolveSide(m.lookups, n, alts, false).value;
      StandsBetween(keys, w, r, m.lookups, n, alts, true);
      StandsBetween(keys + w, r, [], m.lookups, n, alts, false);
      assert keys + w + r + [] == keys + w + r;
    }
  }

  lemma NothingStands(m: Message, alts: Tables, writable: bool)
    requires |m.lookups| == 0
    ensures KeysBefore(m.lookups, 0, writable) == 0
    ensures SideStands(m.accountKeys, |m.accountKeys|, m.lookups, 0, alts, writable)
  {
  }

  lemma StandsBetween(a: seq<PublicKey>, side: seq<PublicKey>, b: seq<PublicKey>, lks: seq<AddressTableLookup>,
                      n: nat, alts: Tables, writable: bool)
    requires n <= |lks| && SideStands(side, 0, lks, n, alts, writable)
    ensures SideStands(a + side + b, |a|, lks, n, alts, writable)
  {
    hide Good, Indexes, KeysBefore, Selected;
    forall k: nat | k < n
      ensures SelectedStand(a + side + b, |a| + KeysBefore(lks, k, writable), lks[k], alts, writable)
    {
      var q := KeysBefore(lks, k, writable);
      assert SelectedStand(side, 0 + q, lks[k], alts, writable);
      forall j: nat | j < |Indexes(lks[k], writable)|
        ensures (a + side + b)[|a| + q + j] == Selected(lks[k], alts, writable, j)
      {
        assert (a + side + b)[|a| + q + j] == side[q + j];
      }
    }
  }

  /**
   What is refused, and how: the writable side of every lookup is resolved first, and finds a missing
   table; the readonly sides follow, where every table is present.
   */
  lemma ResolutionRefusals(m: Message, alts: Tables, k: nat)
    requires k < |m.lookups|
    ensures FirstBad(m.lookups, k, alts, true) && m.lookups[k].accountKey !in alts ==>
              Resolve(m, alts) == Failure(MissingTable)
    ensures FirstBad(m.lookups, k, alts, true) && m.lookups[k].accountKey in alts ==>
              Resolve(m, alts) == Failure(IndexOutOfRange)
    ensures !Good(m.lookups[k], alts, false) && (forall lk :: lk in m.lookups ==> Good(lk, alts, true)) ==>
              Resolve(m, alts) == Failure(IndexOutOfRange)
  {
    hide Indexes, ResolveSide;
    if FirstBad(m.lookups, k, alts, true) {
      SideFails(m.lookups, k, alts, true);
    } else if !Good(m.lookups[k], alts, false) && forall lk :: lk in m.lookups ==> Good(lk, alts, true) {
      SideResolves(m.lookups, |m.lookups|, alts, true);
      var f := BadHasFirst(m.lookups, k, alts, false);
      SideFails(m.lookups, f, alts, false);
    }
  }

  /** Together with the refusals this says exactly when resolution succeeds. */
  lemma ResolvesExactly(m: Message, alts: Tables)
    ensures Resolve(m, alts).Success? <==> forall lk, w :: lk in m.lookups ==> Good(lk, alts, w)
  {
    hide Good, Resolve;
    if lk, w :| lk in m.lookups && !Good(lk, alts, w) {
      var k: nat :| k < |m.lookups| && m.lookups[k] == lk;
      if i: nat :| i < |m.lookups| && !Good(m.lookups[i], alts, true) {
        var f := BadHasFirst(m.lookups, i, alts, true);
        ResolutionRefusals(m, alts, f);
      } else {
        assert !w;
        ResolutionRefusals(m, alts, k);
      }
    } else {
      ResolvedLayout(m, alts);
    }
  }

  // ---------------------------------------------------------------- code

  method SelectKeys(addrs: seq<PublicKey>, idxs: seq<byte>, out: seq<PublicKey>) returns (r: Result<seq<PublicKey>>)
    ensures r == match Select(addrs, idxs, |idxs|)
                 case Success(ks) => Success(out + ks)
                 case Failure(e) => Failure(e)
  {
    var keys := out;
    for i := 0 to |idxs|
      invariant Select(addrs, idxs, i).Success?
      invariant keys == out + Select(addrs, idxs, i).value
    {
      if idxs[i] >= |addrs| {
        SelectFails(addrs, idxs, i + 1, |idxs|);
        return Failure(IndexOutOfRange);
      }
      keys := keys + [addrs[idxs[i]]];
    }
    return Success(keys);
  }

  lemma {:induction false} SelectFails(addrs: seq<PublicKey>, idxs: seq<byte>, i: nat, n: nat)
    requires i <= n <= |idxs| && Select(addrs, idxs, i).Failure?
    ensures Select(addrs, idxs, n) == Select(addrs, idxs, i)
  {
    if i < n {
      SelectFails(addrs, idxs, i, n - 1);
    }
  }

  lemma {:induction false} ResolveSideFails(lks: seq<AddressTableLookup>, i: nat, n: nat, alts: Tables, writable: bool)
    requires i <= n <= |lks| && ResolveSide(lks, i, alts, writable).Failure?
    ensures ResolveSide(lks, n, alts, writable) == ResolveSide(lks, i, alts, writable)
  {
    if i < n {
      ResolveSideFails(lks, i, n - 1, alts, writable);
    }
  }

  method AppendSide(lks: seq<AddressTableLookup>, alts: Tables, writable: bool, out: seq<PublicKey>)
    returns (r: Result<seq<PublicKey>>)
    ensures r == match ResolveSide(lks, |lks|, alts, writable)
                 case Success(ks) => Success(out + ks)
                 case Failure(e) => Failure(e)
  {
    var keys := out;
    for i := 0 to |lks|
      invariant ResolveSide(lks, i, alts, writable).Success?
      invariant keys == out + ResolveSide(lks, i, alts, writable).value
    {
      if lks[i].accountKey !in alts {
        ResolveSideFails(lks, i + 1, |lks|, alts, writable);
        return Failure(MissingTable);
      }
      var more := SelectKeys(alts[lks[i].accountKey], Indexes(lks[i], writable), keys);
      if more.Failure? {
        ResolveSideFails(lks, i + 1, |lks|, alts, writable);
        return more;
      }
      keys := more.value;
    }
    return Success(keys);
  }

  method ResolvedAccountKeys(m: Message, alts: Tables) returns (r: Result<seq<PublicKey>>)
    ensures r == Resolve(m, alts)
  {
    if |m.lookups| == 0 {
      return Success(m.accountKeys);
    }
    var written :- AppendSide(m.lookups, alts, true, m.accountKeys);
    r := AppendSide(m.lookups, alts, false, written);
  }
}

/**
 The deduplicating collector of static account keys (staticEntries in message_builder.go). What it
 must produce is stated over the sequence of mentions it was given, without maps or counters.
 */
module StaticEntries {
  import opened Message
  import opened Ordering

  /** One reference to a key: an account meta, the payer, or a program id. */
  datatype Mention = Mention(key: PublicKey, signer: bool, writable: bool)

  ghost predicate Mentioned(ms: seq<Mention>, k: PublicKey) {
    exists i :: 0 <= i < |ms| && ms[i].key == k
  }

  /** Some mention of k requires its signature. */
  ghost predicate Signs(ms: seq<Mention>, k: PublicKey) {
    exists i :: 0 <= i < |ms| && ms[i].key == k && ms[i].signer
  }

  /** Some mention of k writes to it. */
  ghost predicate Writes(ms: seq<Mention>, k: PublicKey) {
    exists i :: 0 <= i < |ms| && ms[i].key == k && ms[i].writable
  }

  lemma MentionsSnoc(ms: seq<Mention>, m: Mention, k: PublicKey)
    ensures Mentioned(ms + [m], k) <==> Mentioned(ms, k) || m.key == k
    ensures Signs(ms + [m], k) <==> Signs(ms, k) || (m.key == k && m.signer)
    ensures Writes(ms + [m], k) <==> Writes(ms, k) || (m.key == k && m.writable)
  {
    var all := ms + [m];
    assert all[|ms|] == m;
    assert forall i :: 0 <= i < |ms| ==> all[i] == ms[i];
  }

  lemma MentionsCat(a: seq<Mention>, b: seq<Mention>, k: PublicKey)
    ensures Mentioned(a + b, k) <==> Mentioned(a, k) || Mentioned(b, k)
    ensures Signs(a + b, k) <==> Signs(a, k) || Signs(b, k)
    ensures Writes(a + b, k) <==> Writes(a, k) || Writes(b, k)
  {
    var all := a + b;
    assert forall i :: 0 <= i < |a| ==> all[i] == a[i];
    assert forall i :: 0 <= i < |b| ==> all[|a| + i] == b[i];
  }

  /** The keys in the order of their first mention, each once. */
  ghost function FirstSeen(ms: seq<Mention>): (ks: seq<PublicKey>)
    ensures forall k :: k in ks <==> Mentioned(ms, k)
    ensures Distinct(ks)
  {
    if |ms| == 0 then []
    else
      var n := |ms| - 1;
      var ks := FirstSeen(ms[..n]);
      assert ms == ms[..n] + [ms[n]];
      assert forall k :: Mentioned(ms, k) <==> Mentioned(ms[..n], k) || ms[n].key == k by {
        forall k ensures Mentioned(ms, k) <==> Mentioned(ms[..n], k) || ms[n].key == k {
          MentionsSnoc(ms[..n], ms[n], k);
        }
      }
      if ms[n].key in ks then ks else ks + [ms[n].key]
  }

  lemma FirstSeenSnoc(ms: seq<Mention>, m: Mention)
    ensures FirstSeen(ms + [m]) == FirstSeen(ms) + if Mentioned(ms, m.key) then [] else [m.key]
  {
    assert (ms + [m])[..|ms|] == ms;
  }

  lemma MentionedIfRole(ms: seq<Mention>, k: PublicKey)
    ensures Signs(ms, k) || Writes(ms, k) ==> Mentioned(ms, k)
  {
  }

  /** The role bucket: signer-writable, signer-readonly, writable, readonly. */
  function BucketOf(signer: bool, writable: bool): (b: nat)
    ensures b < 4
  {
    if signer then (if writable then 0 else 1) else if writable then 2 else 3
  }

  ghost function RoleOf(ms: seq<Mention>, k: PublicKey): (r: nat) {
    BucketOf(Signs(ms, k), Writes(ms, k))
  }

  ghost function Bucket(ms: seq<Mention>, b: nat): (r: seq<PublicKey>) {
    Filter(FirstSeen(ms), k => RoleOf(ms, k) == b)
  }

  ghost function StaticKeys(ms: seq<Mention>): (r: seq<PublicKey>) {
    Bucket(ms, 0) + Bucket(ms, 1) + Bucket(ms, 2) + Bucket(ms, 3)
  }

  /** The counts are stored in bytes. */
  function CountHeader(b0: nat, b1: nat, b3: nat): (r: MessageHeader) {
    MessageHeader((b0 + b1) % 256, b1 % 256, b3 % 256)
  }

  ghost function HeaderOf(ms: seq<Mention>): (r: MessageHeader) {
    CountHeader(|Bucket(ms, 0)|, |Bucket(ms, 1)|, |Bucket(ms, 3)|)
  }

  // ---------------------------------------------------------------- the key list

  lemma StaticKeysContents(ms: seq<Mention>, k: PublicKey)
    ensures k in StaticKeys(ms) <==> Mentioned(ms, k)
  {
  }

  ghost function Position(ks: seq<PublicKey>): (rank: map<PublicKey, nat>)
    requires Distinct(ks)
    ensures Ranks(ks, rank) && forall k :: k in rank <==> k in ks
  {
    if |ks| == 0 then map[]
    else
      var n := |ks| - 1;
      assert ks == ks[..n] + [ks[n]];
      assert Ranks(ks[..n], Position(ks[..n]));
      var rank := Position(ks[..n])[ks[n] := n];
      assert forall i :: 0 <= i < n ==> ks[i] == ks[..n][i];
      rank
  }

  /** When k was first mentioned, relative to the other keys. */
  ghost function SeenAt(ms: seq<Mention>, k: PublicKey): (r: nat)
    requires Mentioned(ms, k)
  {
    Position(FirstSeen(ms))[k]
  }

  /** Where bucket b starts in the key list. */
  ghost function Offset(ms: seq<Mention>, b: nat): (r: nat) {
    if b == 0 then 0 else Offset(ms, b - 1) + |Bucket(ms, b - 1)|
  }

  lemma OffsetsOf(ms: seq<Mention>)
    ensures Offset(ms, 1) == |Bucket(ms, 0)|
    ensures Offset(ms, 2) == |Bucket(ms, 0)| + |Bucket(ms, 1)|
    ensures Offset(ms, 3) == |Bucket(ms, 0)| + |Bucket(ms, 1)| + |Bucket(ms, 2)|
    ensures |StaticKeys(ms)| == Offset(ms, 3) + |Bucket(ms, 3)|
  {
    assert Offset(ms, 2) == Offset(ms, 1) + |Bucket(ms, 1)|;
  }

  /** Position i of the key list is position idx of bucket b. */
  lemma BucketSplit(ms: seq<Mention>, i: nat) returns (b: nat, idx: nat)
    requires i < |StaticKeys(ms)|
    ensures b < 4 && idx < |Bucket(ms, b)| && i == Offset(ms, b) + idx
    ensures StaticKeys(ms)[i] == Bucket(ms, b)[idx]
    ensures Mentioned(ms, StaticKeys(ms)[i]) && RoleOf(ms, StaticKeys(ms)[i]) == b
  {
    OffsetsOf(ms);
    b := if i < Offset(ms, 1) then 0 else if i < Offset(ms, 2) then 1 else if i < Offset(ms, 3) then 2 else 3;
    idx := i - Offset(ms, b);
    assert Bucket(ms, b)[idx] in Bucket(ms, b);
  }

  lemma InBucketOrder(ms: seq<Mention>, b: nat, i: nat, j: nat)
    requires i < j < |Bucket(ms, b)|
    ensures Mentioned(ms, Bucket(ms, b)[i]) && Mentioned(ms, Bucket(ms, b)[j])
    ensures SeenAt(ms, Bucket(ms, b)[i]) < SeenAt(ms, Bucket(ms, b)[j])
  {
    var order := FirstSeen(ms);
    FilterAscends(order, Position(order), k => RoleOf(ms, k) == b);
    assert Bucket(ms, b)[i] in Bucket(ms, b) && Bucket(ms, b)[j] in Bucket(ms, b);
  }

  /**
   The key list is ordered by role bucket and, inside a bucket, by first mention; in particular it
   repeats no key.
   */
  lemma StaticKeysOrdered(ms: seq<Mention>, i: nat, j: nat)
    requires i < j < |StaticKeys(ms)|
    ensures var a, b := StaticKeys(ms)[i], StaticKeys(ms)[j];
            && Mentioned(ms, a) && Mentioned(ms, b) && a != b
            && (RoleOf(ms, a) < RoleOf(ms, b) || (RoleOf(ms, a) == RoleOf(ms, b) && SeenAt(ms, a) < SeenAt(ms, b)))
  {
    var bi, x := BucketSplit(ms, i);
    var bj, y := BucketSplit(ms, j);
    OffsetsOf(ms);
    hide Bucket, StaticKeys, RoleOf, Mentioned, SeenAt;
    if bi == bj {
      InBucketOrder(ms, bi, x, y);
    }
  }

  /** A key mentioned first as a writable signer, as the payer is, opens the list. */
  lemma PayerFirst(ms: seq<Mention>)
    requires |ms| > 0 && ms[0].signer && ms[0].writable
    ensures |StaticKeys(ms)| > 0 && StaticKeys(ms)[0] == ms[0].key
  {
    var payer := ms[0].key;
    FirstSeenHead(ms);
    assert RoleOf(ms, payer) == 0;
    assert payer in Bucket(ms, 0);
    var i :| 0 <= i < |Bucket(ms, 0)| && Bucket(ms, 0)[i] == payer;
    if i > 0 {
      InBucketOrder(ms, 0, 0, i);
    }
  }

  lemma {:induction false} FirstSeenHead(ms: seq<Mention>)
    requires |ms| > 0
    ensures |FirstSeen(ms)| > 0 && FirstSeen(ms)[0] == ms[0].key
  {
    if |ms| > 1 {
      FirstSeenHead(ms[..|ms| - 1]);
    } else {
      assert FirstSeen(ms[..0]) == [];
    }
  }

  // ---------------------------------------------------------------- the collector

  datatype StaticEntry = StaticEntry(pubkey: PublicKey, signer: bool, writable: bool, firstSeen: nat)

  /** The map and the counter hold what the mentions ms say. */
  ghost predicate Represents(m: map<PublicKey, StaticEntry>, counter: nat, ms: seq<Mention>) {
    && counter == |FirstSeen(ms)|
    && (forall k :: k in m <==> Mentioned(ms, k))
    && forall k :: k in m ==>
         && m[k].pubkey == k
         && m[k].signer == Signs(ms, k)
         && m[k].writable == Writes(ms, k)
         && m[k].firstSeen < counter && FirstSeen(ms)[m[k].firstSeen] == k
  }

  /** es holds the entries of bucket b whose keys are in done, in some order. */
  ghost predicate Gathered(m: map<PublicKey, StaticEntry>, es: seq<StaticEntry>, b: nat, done: set<PublicKey>) {
    && (forall e :: e in es ==> e.pubkey in done && e.pubkey in m && m[e.pubkey] == e)
    && (forall e :: e in es ==> BucketOf(e.signer, e.writable) == b)
    && (forall k :: k in done && k in m && BucketOf(m[k].signer, m[k].writable) == b ==> m[k] in es)
    && Distinct(es)
  }

  lemma GatheredStep(m: map<PublicKey, StaticEntry>, es: seq<StaticEntry>, b: nat, done: set<PublicKey>, k: PublicKey)
    requires Gathered(m, es, b, done) && k in m && k !in done && m[k].pubkey == k
    ensures Gathered(m, if BucketOf(m[k].signer, m[k].writable) == b then es + [m[k]] else es, b, done + {k})
  {
    if BucketOf(m[k].signer, m[k].writable) == b {
      assert m[k] !in es;
    }
  }

  /** Sorted by first mention, the gathered entries spell the bucket. */
  lemma GatheredKeys(m: map<PublicKey, StaticEntry>, counter: nat, ms: seq<Mention>, es: seq<StaticEntry>, b: nat,
                     keys: seq<PublicKey>)
    requires Represents(m, counter, ms) && Gathered(m, es, b, m.Keys)
    requires forall i, j :: 0 <= i < j < |es| ==> es[i].firstSeen < es[j].firstSeen
    requires |keys| == |es| && forall i :: 0 <= i < |es| ==> keys[i] == es[i].pubkey
    ensures keys == Bucket(ms, b)
  {
    var order := FirstSeen(ms);
    var rank := Position(order);
    var role := k => RoleOf(ms, k) == b;
    forall i | 0 <= i < |keys| ensures keys[i] in rank && rank[keys[i]] == es[i].firstSeen {
      assert es[i] in es;
      assert order[es[i].firstSeen] == keys[i];
    }
    forall k ensures k in keys <==> k in order && role(k) {
      GatheredMember(m, counter, ms, es, b, keys, k);
    }
    hide Gathered, Represents;
    AscendingIsFilter(order, rank, keys, role);
    FilterAgree(order, role, k => RoleOf(ms, k) == b);
  }

  lemma GatheredMember(m: map<PublicKey, StaticEntry>, counter: nat, ms: seq<Mention>, es: seq<StaticEntry>, b: nat,
                       keys: seq<PublicKey>, k: PublicKey)
    requires Represents(m, counter, ms) && Gathered(m, es, b, m.Keys)
    requires |keys| == |es| && forall i :: 0 <= i < |es| ==> keys[i] == es[i].pubkey
    ensures k in keys <==> k in FirstSeen(ms) && RoleOf(ms, k) == b
  {
    hide Mentioned, Signs, Writes, FirstSeen;
    if k in keys {
      var i :| 0 <= i < |keys| && keys[i] == k;
      assert es[i] in es;
    }
    if k in FirstSeen(ms) && RoleOf(ms, k) == b {
      assert m[k] in es;
      var i :| 0 <= i < |es| && es[i] == m[k];
      assert keys[i] == k;
    }
  }

  class Collector {
    var m: map<PublicKey, StaticEntry>
    var counter: nat
    // The mentions received so far.
    ghost var mentions: seq<Mention>

    constructor ()
      ensures Valid() && mentions == []
    {
      m := map[];
      counter := 0;
      mentions := [];
    }

    ghost predicate Valid()
      reads this
    {
      Represents(m, counter, mentions)
    }

    /** Roles accumulate: once a signer or writable, always one. */
    method AddOrUpdate(pk: PublicKey, signer: bool, writable: bool)
      requires Valid()
      modifies this
      ensures Valid() && mentions == old(mentions) + [Mention(pk, signer, writable)]
    {
      ghost var mention := Mention(pk, signer, writable);
      forall k {
        MentionsSnoc(mentions, mention, k);
      }
      FirstSeenSnoc(mentions, mention);
      hide Mentioned, Signs, Writes, FirstSeen;
      var e := StaticEntry(pk, false, false, counter);
      if pk in m {
        e := m[pk];
      } else {
        assert !Signs(mentions, pk) && !Writes(mentions, pk) by {
          MentionedIfRole(mentions, pk);
        }
        counter := counter + 1;
      }
      m := m[pk := StaticEntry(pk, e.signer || signer, e.writable || writable, e.firstSeen)];
      mentions := mentions + [mention];
    }

    /** Distributes the entries over the four buckets, taking the map in an arbitrary order. */
    method Gather() returns (buckets: seq<seq<StaticEntry>>)
      requires Valid()
      ensures |buckets| == 4 && forall b :: 0 <= b < 4 ==> Gathered(m, buckets[b], b, m.Keys)
    {
      assert forall k :: k in m ==> m[k].pubkey == k;
      buckets := [[], [], [], []];
      var todo := m.Keys;
      ghost var done := {};
      while todo != {}
        invariant todo <= m.Keys && done == m.Keys - todo && |buckets| == 4
        invariant forall b :: 0 <= b < 4 ==> Gathered(m, buckets[b], b, done)
      {
        var k :| k in todo;
        var target := BucketOf(m[k].signer, m[k].writable);
        ghost var before := buckets;
        buckets := buckets[target := buckets[target] + [m[k]]];
        forall b | 0 <= b < 4 ensures Gathered(m, buckets[b], b, done + {k}) {
          hide Gathered, Represents, BucketOf;
          GatheredStep(m, before[b], b, done, k);
        }
        todo, done := todo - {k}, done + {k};
      }
      assert done == m.Keys;
    }

    /** The ordered key list and the header do not depend on the iteration order of the map. */
    method BucketAndOrder() returns (keys: seq<PublicKey>, header: MessageHeader)
      requires Valid()
      ensures keys == StaticKeys(mentions)
      ensures header == HeaderOf(mentions)
    {
      var buckets := Gather();
      hide Gathered, Represents, Bucket, CountHeader;
      var b0 := SortBucket(buckets[0], 0);
      var b1 := SortBucket(buckets[1], 1);
      var b2 := SortBucket(buckets[2], 2);
      var b3 := SortBucket(buckets[3], 3);
      keys := b0 + b1 + b2 + b3;
      header := CountHeader(|b0|, |b1|, |b3|);
    }

    method SortBucket(es: seq<StaticEntry>, b: nat) returns (keys: seq<PublicKey>)
      requires Valid() && Gathered(m, es, b, m.Keys)
      ensures keys == Bucket(mentions, b)
    {
      forall i, j | 0 <= i < j < |es| ensures es[i].firstSeen != es[j].firstSeen {
        assert es[i] in es && es[j] in es;
      }
      var sorted := SortBy(es, (e: StaticEntry) => e.firstSeen);
      keys := [];
      for i := 0 to |sorted|
        invariant |keys| == i
        invariant forall j :: 0 <= j < i ==> keys[j] == sorted[j].pubkey
      {
        keys := keys + [sorted[i].pubkey];
      }
      assert Gathered(m, sorted, b, m.Keys);
      GatheredKeys(m, counter, mentions, sorted, b, keys);
    }
  }
}

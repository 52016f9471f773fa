/**
 The order of the static keys, said over the instructions themselves: the payer comes first, then
 instruction by instruction the accounts by position, and after them the instruction's program. Keys of
 one role stand in the order of their first reference that stays static.
 */
module ReferenceOrder {
  import opened Wire
  import opened Message
  import opened Ordering
  import opened StaticEntries
  import opened Builder
  import opened Compilation
  import opened CompilerTheorems

  /** Where a key is referred to. */
  datatype Place = Payer | Account(ix: nat, position: nat) | Program(ix: nat)

  predicate IsPlace(ixs: seq<Option<Instruction>>, p: Place)
    requires Present(ixs)
  {
    match p
    case Payer => true
    case Account(i, j) => i < |ixs| && j < |ixs[i].value.accounts|
    case Program(i) => i < |ixs|
  }

  function KeyAtPlace(payer: PublicKey, ixs: seq<Option<Instruction>>, p: Place): (k: PublicKey)
    requires Present(ixs) && IsPlace(ixs, p)
  {
    match p
    case Payer => payer
    case Account(i, j) => ixs[i].value.accounts[j].value.publicKey
    case Program(i) => ixs[i].value.programId
  }

  /** The reading order of references. */
  predicate Before(p: Place, q: Place) {
    match (p, q)
    case (_, Payer) => false
    case (Payer, _) => true
    case (Account(i, j), Account(k, l)) => i < k || (i == k && j < l)
    case (Account(i, _), Program(k)) => i <= k
    case (Program(i), Account(k, _)) => i < k
    case (Program(i), Program(k)) => i < k
  }

  /** The reference at p keeps its key static. */
  predicate StaysStatic(payer: PublicKey, ixs: seq<Option<Instruction>>, keep: PublicKey -> bool, p: Place)
    requires Present(ixs)
  {
    IsPlace(ixs, p) && (p.Account? ==> keep(KeyAtPlace(payer, ixs, p)))
  }

  /** p is the first static reference to k. */
  ghost predicate FirstPlace(payer: PublicKey, ixs: seq<Option<Instruction>>, keep: PublicKey -> bool, k: PublicKey,
                             p: Place)
    requires Present(ixs)
  {
    && StaysStatic(payer, ixs, keep, p) && KeyAtPlace(payer, ixs, p) == k
    && forall q :: StaysStatic(payer, ixs, keep, q) && KeyAtPlace(payer, ixs, q) == k ==> !Before(q, p)
  }

  // ---------------------------------------------------------------- the places of the mentions

  function AccountPlaces(metas: seq<Option<AccountMeta>>, i: nat, n: nat, keep: PublicKey -> bool): (ps: seq<Place>)
    requires n <= |metas| && MetasPresent(metas)
  {
    if n == 0 then []
    else
      AccountPlaces(metas, i, n - 1, keep) + if keep(metas[n - 1].value.publicKey) then [Account(i, n - 1)] else []
  }

  function Places(ixs: seq<Option<Instruction>>, n: nat, keep: PublicKey -> bool): (ps: seq<Place>)
    requires n <= |ixs| && Present(ixs)
  {
    if n == 0 then [Payer]
    else
      var metas := ixs[n - 1].value.accounts;
      Places(ixs, n - 1, keep) + AccountPlaces(metas, n - 1, |metas|, keep) + [Program(n - 1)]
  }

  lemma {:induction false} AccountPlacesMatch(metas: seq<Option<AccountMeta>>, i: nat, n: nat, keep: PublicKey -> bool)
    requires n <= |metas| && MetasPresent(metas)
    ensures var ps, ms := AccountPlaces(metas, i, n, keep), Kept(metas, n, keep);
            && |ps| == |ms|
            && (forall x :: 0 <= x < |ps| ==>
                  && ps[x].Account? && ps[x].ix == i && ps[x].position < n
                  && keep(metas[ps[x].position].value.publicKey)
                  && ms[x].key == metas[ps[x].position].value.publicKey)
            && (forall x, y :: 0 <= x < y < |ps| ==> ps[x].position < ps[y].position)
    ensures forall j :: 0 <= j < n && keep(metas[j].value.publicKey) ==>
              Account(i, j) in AccountPlaces(metas, i, n, keep)
  {
    if n > 0 {
      AccountPlacesMatch(metas, i, n - 1, keep);
    }
  }

  /** The mentions stand for the static references, in reading order. */
  ghost predicate Reads(payer: PublicKey, ixs: seq<Option<Instruction>>, n: nat, keep: PublicKey -> bool,
                        ps: seq<Place>, ms: seq<Mention>)
    requires n <= |ixs| && Present(ixs)
  {
    && |ps| == |ms|
    && (forall x :: 0 <= x < |ps| ==>
          && StaysStatic(payer, ixs, keep, ps[x]) && (ps[x].Payer? || ps[x].ix < n)
          && ms[x].key == KeyAtPlace(payer, ixs, ps[x]))
    && (forall x, y :: 0 <= x < y < |ps| ==> Before(ps[x], ps[y]))
    && forall p :: StaysStatic(payer, ixs, keep, p) && (p.Payer? || p.ix < n) ==> p in ps
  }

  lemma {:induction false} PlacesRead(payer: PublicKey, ixs: seq<Option<Instruction>>, n: nat, keep: PublicKey -> bool)
    requires n <= |ixs| && Present(ixs)
    ensures Reads(payer, ixs, n, keep, Places(ixs, n, keep), StaticMentions(payer, ixs, n, keep))
  {
    hide Reads, ReadsOne, Places, StaticMentions, AccountPlaces, Kept;
    if n == 0 {
      PayerRead(payer, ixs, keep);
    } else {
      PlacesRead(payer, ixs, n - 1, keep);
      InstructionRead(payer, ixs, n - 1, keep);
      var metas := ixs[n - 1].value.accounts;
      ReadsOn(payer, ixs, n, keep, Places(ixs, n - 1, keep), StaticMentions(payer, ixs, n - 1, keep),
              AccountPlaces(metas, n - 1, |metas|, keep) + [Program(n - 1)],
              Kept(metas, |metas|, keep) + [Mention(ixs[n - 1].value.programId, false, false)]);
      OneMoreInstruction(payer, ixs, n, keep);
    }
  }

  lemma PayerRead(payer: PublicKey, ixs: seq<Option<Instruction>>, keep: PublicKey -> bool)
    requires Present(ixs)
    ensures Reads(payer, ixs, 0, keep, Places(ixs, 0, keep), StaticMentions(payer, ixs, 0, keep))
  {
    assert Places(ixs, 0, keep)[0] == Payer;
  }

  lemma InstructionRead(payer: PublicKey, ixs: seq<Option<Instruction>>, i: nat, keep: PublicKey -> bool)
    requires Present(ixs) && i < |ixs|
    ensures var metas := ixs[i].value.accounts;
            ReadsOne(payer, ixs, i, keep, AccountPlaces(metas, i, |metas|, keep) + [Program(i)],
                     Kept(metas, |metas|, keep) + [Mention(ixs[i].value.programId, false, false)])
  {
    hide ReadsOne, AccountPlaces, Kept;
    var metas := ixs[i].value.accounts;
    AccountPlacesMatch(metas, i, |metas|, keep);
    ReadsInstruction(payer, ixs, i, keep, AccountPlaces(metas, i, |metas|, keep), Kept(metas, |metas|, keep));
  }

  lemma OneMoreInstruction(payer: PublicKey, ixs: seq<Option<Instruction>>, n: nat, keep: PublicKey -> bool)
    requires 0 < n <= |ixs| && Present(ixs)
    ensures var ix := ixs[n - 1].value;
            && Places(ixs, n, keep) == Places(ixs, n - 1, keep)
               + (AccountPlaces(ix.accounts, n - 1, |ix.accounts|, keep) + [Program(n - 1)])
            && StaticMentions(payer, ixs, n, keep) == StaticMentions(payer, ixs, n - 1, keep)
               + (Kept(ix.accounts, |ix.accounts|, keep) + [Mention(ix.programId, false, false)])
  {
  }

  /** The static references of instruction i, and only those, in reading order. */
  ghost predicate ReadsOne(payer: PublicKey, ixs: seq<Option<Instruction>>, i: nat, keep: PublicKey -> bool,
                           ps: seq<Place>, ms: seq<Mention>)
    requires Present(ixs)
  {
    && |ps| == |ms|
    && (forall x :: 0 <= x < |ps| ==>
          && StaysStatic(payer, ixs, keep, ps[x]) && !ps[x].Payer? && ps[x].ix == i
          && ms[x].key == KeyAtPlace(payer, ixs, ps[x]))
    && (forall x, y :: 0 <= x < y < |ps| ==> Before(ps[x], ps[y]))
    && forall p :: StaysStatic(payer, ixs, keep, p) && !p.Payer? && p.ix == i ==> p in ps
  }

  lemma ReadsInstruction(payer: PublicKey, ixs: seq<Option<Instruction>>, i: nat, keep: PublicKey -> bool,
                         aps: seq<Place>, ams: seq<Mention>)
    requires Present(ixs) && i < |ixs| && |aps| == |ams|
    requires var metas := ixs[i].value.accounts;
             && (forall x :: 0 <= x < |aps| ==>
                   && aps[x].Account? && aps[x].ix == i && aps[x].position < |metas|
                   && keep(metas[aps[x].position].value.publicKey)
                   && ams[x].key == metas[aps[x].position].value.publicKey)
             && (forall x, y :: 0 <= x < y < |aps| ==> aps[x].position < aps[y].position)
             && forall j :: 0 <= j < |metas| && keep(metas[j].value.publicKey) ==> Account(i, j) in aps
    ensures ReadsOne(payer, ixs, i, keep, aps + [Program(i)], ams + [Mention(ixs[i].value.programId, false, false)])
  {
    var all := aps + [Program(i)];
    forall p | StaysStatic(payer, ixs, keep, p) && !p.Payer? && p.ix == i ensures p in all {
      if p == Program(i) {
        assert all[|aps|] == p;
      } else {
        assert p == Account(i, p.position);
      }
    }
  }

  lemma ReadsOn(payer: PublicKey, ixs: seq<Option<Instruction>>, n: nat, keep: PublicKey -> bool, ps: seq<Place>,
                ms: seq<Mention>, qs: seq<Place>, more: seq<Mention>)
    requires 0 < n <= |ixs| && Present(ixs) && Reads(payer, ixs, n - 1, keep, ps, ms)
    requires ReadsOne(payer, ixs, n - 1, keep, qs, more)
    ensures Reads(payer, ixs, n, keep, ps + qs, ms + more)
  {
    hide StaysStatic, KeyAtPlace;
    forall x, y | 0 <= x < y < |ps + qs| ensures Before((ps + qs)[x], (ps + qs)[y]) {
      if x < |ps| <= y {
        assert (ps + qs)[x] == ps[x] && (ps + qs)[y] == qs[y - |ps|];
      }
    }
  }

  // ---------------------------------------------------------------- first mentions

  ghost predicate FirstAt(ms: seq<Mention>, k: PublicKey, x: nat) {
    x < |ms| && ms[x].key == k && forall y :: 0 <= y < x ==> ms[y].key != k
  }

  lemma SeenAtIs(ms: seq<Mention>, k: PublicKey, i: nat)
    requires i < |FirstSeen(ms)| && FirstSeen(ms)[i] == k
    ensures Mentioned(ms, k) && SeenAt(ms, k) == i
  {
    hide FirstSeen;
    assert FirstSeen(ms)[i] in FirstSeen(ms);
  }

  /** Keys are first seen in the order of their first mentions. */
  lemma {:induction false} SeenInOrder(ms: seq<Mention>, a: PublicKey, x: nat, b: PublicKey, y: nat)
    requires FirstAt(ms, a, x) && FirstAt(ms, b, y) && x < y
    ensures Mentioned(ms, a) && Mentioned(ms, b) && SeenAt(ms, a) < SeenAt(ms, b)
  {
    var n := |ms| - 1;
    var front, last := ms[..n], ms[n];
    assert ms == front + [last];
    FirstSeenSnoc(front, last);
    if y < n {
      SeenInOrder(front, a, x, b, y);
      var i, j := SeenAt(front, a), SeenAt(front, b);
      SeenPosition(front, a);
      SeenPosition(front, b);
      SeenAtIs(ms, a, i);
      SeenAtIs(ms, b, j);
    } else {
      NotBefore(front, b);
      assert front[x].key == a;
      SeenPosition(front, a);
      SeenAtIs(ms, a, SeenAt(front, a));
      SeenAtIs(ms, b, |FirstSeen(front)|);
    }
  }

  lemma NotBefore(ms: seq<Mention>, k: PublicKey)
    requires forall y :: 0 <= y < |ms| ==> ms[y].key != k
    ensures !Mentioned(ms, k)
  {
  }

  lemma SeenPosition(ms: seq<Mention>, k: PublicKey)
    requires Mentioned(ms, k)
    ensures SeenAt(ms, k) < |FirstSeen(ms)| && FirstSeen(ms)[SeenAt(ms, k)] == k
  {
    var i :| 0 <= i < |FirstSeen(ms)| && FirstSeen(ms)[i] == k;
  }

  /** The first static reference to k is its first mention. */
  lemma FirstPlaceMentioned(payer: PublicKey, ixs: seq<Option<Instruction>>, keep: PublicKey -> bool, k: PublicKey,
                            p: Place) returns (x: nat)
    requires Present(ixs) && FirstPlace(payer, ixs, keep, k, p)
    ensures x < |Places(ixs, |ixs|, keep)| && Places(ixs, |ixs|, keep)[x] == p
    ensures FirstAt(StaticMentions(payer, ixs, |ixs|, keep), k, x)
  {
    hide Places, StaticMentions;
    PlacesRead(payer, ixs, |ixs|, keep);
    var ps := Places(ixs, |ixs|, keep);
    assert p in ps;
    x :| 0 <= x < |ps| && ps[x] == p;
  }

  /** So the static references put the keys in order. */
  lemma ReferencesOrderKeys(payer: PublicKey, ixs: seq<Option<Instruction>>, keep: PublicKey -> bool, a: PublicKey,
                            p: Place, b: PublicKey, q: Place)
    requires Present(ixs) && FirstPlace(payer, ixs, keep, a, p) && FirstPlace(payer, ixs, keep, b, q) && a != b
    ensures var ms := StaticMentions(payer, ixs, |ixs|, keep);
            && Mentioned(ms, a) && Mentioned(ms, b)
            && (SeenAt(ms, a) < SeenAt(ms, b) <==> Before(p, q))
  {
    var x := FirstPlaceMentioned(payer, ixs, keep, a, p);
    var y := FirstPlaceMentioned(payer, ixs, keep, b, q);
    PlacesRead(payer, ixs, |ixs|, keep);
    hide Places, StaticMentions, SeenAt, FirstPlace;
    var ms := StaticMentions(payer, ixs, |ixs|, keep);
    if x < y {
      SeenInOrder(ms, a, x, b, y);
    } else {
      assert x != y;
      SeenInOrder(ms, b, y, a, x);
      assert !Before(p, q);
    }
  }
}

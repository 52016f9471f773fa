/**
 Incremental signing (Transaction.Sign, Transaction.VerifySignatures). The signature scheme is a
 parameter: signers are arbitrary functions, and verification is an arbitrary predicate that accepts
 what the scheme produces.
 */
module Signing {
  import opened Wire
  import opened Message
  import opened MessageCodec
  import opened TxCodec

  datatype Signer = Signer(publicKey: PublicKey, sign: seq<byte> -> Option<Signature>)

  const ZERO_SIGNATURE: Signature := ZeroBytes(64)

  function EmptySlots(n: nat): (s: seq<Signature>)
    ensures |s| == n
    ensures forall i :: 0 <= i < n ==> s[i] == ZERO_SIGNATURE
  {
    if n == 0 then [] else [ZERO_SIGNATURE] + EmptySlots(n - 1)
  }

  /** The slot that a key signs: its last position among the first n keys. */
  function SlotOf(keys: seq<PublicKey>, n: nat, pk: PublicKey): (slot: Option<nat>)
    requires n <= |keys|
    ensures slot.Some? ==> slot.value < n && keys[slot.value] == pk
    ensures slot.Some? ==> forall i :: slot.value < i < n ==> keys[i] != pk
    ensures slot.None? ==> forall i :: 0 <= i < n ==> keys[i] != pk
  {
    if n == 0 then None
    else if keys[n - 1] == pk then Some(n - 1)
    else SlotOf(keys, n - 1, pk)
  }

  function Grown(sigs: seq<Signature>, n: nat): (g: seq<Signature>)
    ensures |g| >= n && sigs <= g
    ensures forall i :: |sigs| <= i < |g| ==> g[i] == ZERO_SIGNATURE
  {
    if |sigs| < n then sigs + EmptySlots(n - |sigs|) else sigs
  }

  predicate Known(keys: seq<PublicKey>, n: nat, signers: seq<Signer>)
    requires n <= |keys|
  {
    forall i :: 0 <= i < |signers| ==> SlotOf(keys, n, signers[i].publicKey).Some?
  }

  /** Fill the slots of the signers in turn, stopping at the first that fails. */
  function FillSlots(sigs: seq<Signature>, keys: seq<PublicKey>, n: nat, body: seq<byte>, signers: seq<Signer>):
    (r: (seq<Signature>, bool))
    requires n <= |keys| && n <= |sigs| && Known(keys, n, signers)
    ensures |r.0| == |sigs|
    decreases |signers|
  {
    if |signers| == 0 then (sigs, true)
    else
      match signers[0].sign(body)
      case None => (sigs, false)
      case Some(sig) =>
        var slot := SlotOf(keys, n, signers[0].publicKey).value;
        FillSlots(sigs[slot := sig], keys, n, body, signers[1..])
  }

  /**
   The signature slots after a Sign call, and its result. A call that names an unknown signer, or
   whose message does not marshal, has still grown the slots.
   */
  ghost function SignOutcome(sigs: seq<Signature>, m: Message, signers: seq<Signer>):
    (r: (seq<Signature>, Result<()>)) {
    var n := m.header.numRequiredSignatures;
    if n == 0 then (sigs, Failure(NoSignaturesRequired))
    else if |m.accountKeys| < n then (sigs, Failure(NotEnoughKeys))
    else if !Known(m.accountKeys, n, signers) then (Grown(sigs, n), Failure(UnknownSigner))
    else
      match Marshal(m)
      case Failure(e) => (Grown(sigs, n), Failure(e))
      case Success(body) =>
        var (filled, ok) := FillSlots(Grown(sigs, n), m.accountKeys, n, body, signers);
        (filled, if ok then Success(()) else Failure(SignerFailed))
  }

  // ---------------------------------------------------------------- what a set of signers leaves

  ghost function KeysOf(signers: seq<Signer>): (r: set<PublicKey>) {
    set i | 0 <= i < |signers| :: signers[i].publicKey
  }

  /** Every signer produces the signature of one scheme f over body, whenever it produces any. */
  ghost predicate Agree(signers: seq<Signer>, f: PublicKey -> Signature, body: seq<byte>) {
    forall i :: 0 <= i < |signers| ==>
      signers[i].sign(body).None? || signers[i].sign(body).value == f(signers[i].publicKey)
  }

  /** Slot i belongs to a key of pks. */
  ghost predicate Owned(keys: seq<PublicKey>, n: nat, pks: set<PublicKey>, i: nat)
    requires n <= |keys|
  {
    i < n && keys[i] in pks && SlotOf(keys, n, keys[i]) == Some(i)
  }

  /** after is before with the slots of pks holding the scheme's signatures. */
  ghost predicate SignedBy(before: seq<Signature>, after: seq<Signature>, keys: seq<PublicKey>, n: nat,
                           f: PublicKey -> Signature, pks: set<PublicKey>)
    requires n <= |keys|
  {
    && |after| == |before|
    && forall i: nat :: i < |after| ==>
         after[i] == if Owned(keys, n, pks, i) then f(keys[i]) else before[i]
  }

  lemma {:induction false} FillSlotsSigns(sigs: seq<Signature>, keys: seq<PublicKey>, n: nat, body: seq<byte>,
                                          signers: seq<Signer>, f: PublicKey -> Signature)
    requires n <= |keys| && n <= |sigs| && Known(keys, n, signers) && Agree(signers, f, body)
    requires FillSlots(sigs, keys, n, body, signers).1
    ensures SignedBy(sigs, FillSlots(sigs, keys, n, body, signers).0, keys, n, f, KeysOf(signers))
    decreases |signers|
  {
    if |signers| > 0 {
      var pk := signers[0].publicKey;
      var slot := SlotOf(keys, n, pk).value;
      FillSlotsSigns(sigs[slot := f(pk)], keys, n, body, signers[1..], f);
      KeysOfCons(signers[0], signers[1..]);
      assert signers == [signers[0]] + signers[1..];
    }
  }

  /** A run of Sign calls, or None when one of them fails. */
  ghost function SignRun(sigs: seq<Signature>, m: Message, calls: seq<seq<Signer>>): (r: Option<seq<Signature>>)
    decreases |calls|
  {
    if |calls| == 0 then Some(sigs)
    else
      var (next, r) := SignOutcome(sigs, m, calls[0]);
      if r.Failure? then None else SignRun(next, m, calls[1..])
  }

  ghost function RunKeys(calls: seq<seq<Signer>>): (r: set<PublicKey>) {
    if |calls| == 0 then {} else KeysOf(calls[0]) + RunKeys(calls[1..])
  }

  ghost predicate AllAgree(calls: seq<seq<Signer>>, f: PublicKey -> Signature, body: seq<byte>) {
    forall i :: 0 <= i < |calls| ==> Agree(calls[i], f, body)
  }

  /**
   Whatever the order and grouping of the calls, a successful run leaves each slot of a key that
   signed with that key's signature over the message, and every other slot as it was.
   */
  lemma {:induction false} SignRunSigns(sigs: seq<Signature>, m: Message, calls: seq<seq<Signer>>,
                                        f: PublicKey -> Signature)
    requires |calls| > 0 && SignRun(sigs, m, calls).Some?
    requires Marshal(m).Success? ==> AllAgree(calls, f, Marshal(m).value)
    ensures Marshal(m).Success? && |m.accountKeys| >= m.header.numRequiredSignatures > 0
    ensures SignedBy(Grown(sigs, m.header.numRequiredSignatures), SignRun(sigs, m, calls).value,
                     m.accountKeys, m.header.numRequiredSignatures, f, RunKeys(calls))
    decreases |calls|
  {
    hide Marshal;
    var n := m.header.numRequiredSignatures;
    var next := SignOutcome(sigs, m, calls[0]).0;
    assert Agree(calls[0], f, Marshal(m).value);
    FillSlotsSigns(Grown(sigs, n), m.accountKeys, n, Marshal(m).value, calls[0], f);
    if |calls| == 1 {
      assert RunKeys(calls) == KeysOf(calls[0]);
    } else {
      assert AllAgree(calls[1..], f, Marshal(m).value);
      SignRunSigns(next, m, calls[1..], f);
      assert Grown(next, n) == next;
    }
  }

  /** Confluence: two runs over the same signing keys end with the same signatures. */
  lemma SigningIsConfluent(sigs: seq<Signature>, m: Message, calls: seq<seq<Signer>>, others: seq<seq<Signer>>,
                           f: PublicKey -> Signature)
    requires |calls| > 0 && SignRun(sigs, m, calls).Some?
    requires |others| > 0 && SignRun(sigs, m, others).Some?
    requires Marshal(m).Success? ==> AllAgree(calls + others, f, Marshal(m).value)
    requires RunKeys(calls) == RunKeys(others)
    ensures SignRun(sigs, m, calls) == SignRun(sigs, m, others)
  {
    hide Marshal, SignRun, Agree;
    if Marshal(m).Success? {
      forall i | 0 <= i < |calls| ensures Agree(calls[i], f, Marshal(m).value) {
        assert (calls + others)[i] == calls[i];
      }
      forall i | 0 <= i < |others| ensures Agree(others[i], f, Marshal(m).value) {
        assert (calls + others)[|calls| + i] == others[i];
      }
    }
    SignRunSigns(sigs, m, calls, f);
    SignRunSigns(sigs, m, others, f);
    assert SignRun(sigs, m, calls).value == SignRun(sigs, m, others).value;
  }

  // ---------------------------------------------------------------- verification

  /** The first slot that is filled and does not verify refuses the transaction; empty slots are skipped. */
  ghost function VerifyOutcome(tx: Tx, verify: (PublicKey, seq<byte>, Signature) -> bool): (r: Result<()>) {
    var m := tx.message;
    var n := m.header.numRequiredSignatures;
    if |tx.signatures| < n then Failure(NotEnoughSignatures)
    else if |m.accountKeys| < n then Failure(NotEnoughKeys)
    else
      match Marshal(m)
      case Failure(e) => Failure(e)
      case Success(body) =>
        if forall i :: 0 <= i < n ==>
             tx.signatures[i] == ZERO_SIGNATURE || verify(m.accountKeys[i], body, tx.signatures[i])
        then Success(()) else Failure(BadSignature)
  }

  lemma ZeroIsZero(s: Signature)
    ensures s == ZERO_SIGNATURE <==> forall k :: 0 <= k < 64 ==> s[k] == 0
  {
  }

  /** The slot holds a signature, any byte of which is not zero, that does not verify over body. */
  predicate Forged(tx: Tx, i: nat, body: seq<byte>, verify: (PublicKey, seq<byte>, Signature) -> bool)
    requires i < |tx.signatures| && i < |tx.message.accountKeys|
  {
    && (exists k :: 0 <= k < 64 && tx.signatures[i][k] != 0)
    && !verify(tx.message.accountKeys[i], body, tx.signatures[i])
  }

  /**
   A transaction verifies if and only if it has a slot and a key for each required signer, its message
   marshals, and none of the required slots is forged; one that does not is refused by the first of these
   that fails.
   */
  lemma VerifiesExactly(tx: Tx, verify: (PublicKey, seq<byte>, Signature) -> bool)
    ensures var m, n := tx.message, tx.message.header.numRequiredSignatures;
            var slots, keys := |tx.signatures| >= n, |tx.message.accountKeys| >= n;
            var r := VerifyOutcome(tx, verify);
            && (r == Success(()) <==>
                && slots && keys && Marshal(m).Success?
                && forall i: nat :: i < n ==> !Forged(tx, i, Marshal(m).value, verify))
            && (r == Failure(BadSignature) <==>
                && slots && keys && Marshal(m).Success?
                && exists i: nat :: i < n && Forged(tx, i, Marshal(m).value, verify))
            && (r == Failure(NotEnoughSignatures) <==> !slots)
            && (r == Failure(NotEnoughKeys) <==> slots && !keys)
            && (slots && keys && Marshal(m).Failure? ==> r == Failure(Marshal(m).error))
  {
    MarshalErrors(tx.message);
    hide Marshal, Forged;
    var m, n := tx.message, tx.message.header.numRequiredSignatures;
    if |tx.signatures| >= n && |m.accountKeys| >= n && Marshal(m).Success? {
      forall i: nat | i < n
        ensures Forged(tx, i, Marshal(m).value, verify) <==>
                tx.signatures[i] != ZERO_SIGNATURE
                && !verify(m.accountKeys[i], Marshal(m).value, tx.signatures[i])
      {
        ForgedExactly(tx, i, Marshal(m).value, verify);
      }
      assert (forall i: nat :: i < n ==> !Forged(tx, i, Marshal(m).value, verify)) <==>
             forall i :: 0 <= i < n ==>
               tx.signatures[i] == ZERO_SIGNATURE || verify(m.accountKeys[i], Marshal(m).value, tx.signatures[i]);
    }
  }

  lemma ForgedExactly(tx: Tx, i: nat, body: seq<byte>, verify: (PublicKey, seq<byte>, Signature) -> bool)
    requires i < |tx.signatures| && i < |tx.message.accountKeys|
    ensures Forged(tx, i, body, verify) <==>
            tx.signatures[i] != ZERO_SIGNATURE && !verify(tx.message.accountKeys[i], body, tx.signatures[i])
  {
    ZeroIsZero(tx.signatures[i]);
  }

  /** Each slot that sigs already has is empty or holds a signature that verifies over body. */
  ghost predicate SlotsSound(sigs: seq<Signature>, m: Message, body: seq<byte>,
                             verify: (PublicKey, seq<byte>, Signature) -> bool)
  {
    forall i :: 0 <= i < |sigs| ==>
      sigs[i] == ZERO_SIGNATURE || (i < |m.accountKeys| && verify(m.accountKeys[i], body, sigs[i]))
  }

  /** Decoding may normalise the configuration, which changes neither the bytes nor what is verified. */
  lemma VerifyIgnoresConfig(tx: Tx, verify: (PublicKey, seq<byte>, Signature) -> bool)
    ensures VerifyOutcome(tx.(message := Normal(tx.message)), verify) == VerifyOutcome(tx, verify)
  {
    NormalMarshalsAlike(tx.message);
    hide Marshal;
  }

  /**
   Incremental signing ends in a transaction that verifies: any successful run over slots that are
   empty or already verify, as many as required or fewer, and also after the transaction has crossed
   the wire.
   */
  lemma SignedVerifies(sigs: seq<Signature>, m: Message, calls: seq<seq<Signer>>, f: PublicKey -> Signature,
                       verify: (PublicKey, seq<byte>, Signature) -> bool)
    requires |calls| > 0 && SignRun(sigs, m, calls).Some? && |sigs| <= m.header.numRequiredSignatures
    requires Marshal(m).Success? ==>
               && AllAgree(calls, f, Marshal(m).value) && SlotsSound(sigs, m, Marshal(m).value, verify)
               && forall pk :: verify(pk, Marshal(m).value, f(pk))
    ensures var tx := Tx(SignRun(sigs, m, calls).value, m);
            && VerifyOutcome(tx, verify) == Success(())
            && MarshalTx(tx).Success?
            && ((m.version == VERSION_LEGACY ==> m.header.numRequiredSignatures < 128) && !LooksLikeV1(tx) ==>
                  && UnmarshalTx(MarshalTx(tx).value).Success?
                  && VerifyOutcome(UnmarshalTx(MarshalTx(tx).value).value, verify) == Success(()))
  {
    hide SignRun, UnmarshalTx, PutTx, Agree, LooksLikeV1, Representable, PutMessage, Fits, Normal;
    SignRunSigns(sigs, m, calls, f);
    var tx := Tx(SignRun(sigs, m, calls).value, m);
    VerifyIgnoresConfig(tx, verify);
    if (m.version == VERSION_LEGACY ==> m.header.numRequiredSignatures < 128) && !LooksLikeV1(tx) {
      TxRoundTripNormal(tx);
    }
  }

  // ---------------------------------------------------------------- refused calls

  /** The key is one of the first n, which are the required signers. */
  predicate Requires(keys: seq<PublicKey>, n: nat, pk: PublicKey)
    requires n <= |keys|
  {
    pk in keys[..n]
  }

  /**
   Sign succeeds if and only if the message requires a signature, lists its signers, marshals, and every
   signer given is required and produces a signature; what fails first decides the refusal.
   */
  lemma SignsExactly(sigs: seq<Signature>, m: Message, signers: seq<Signer>)
    ensures var n := m.header.numRequiredSignatures;
            var keys := |m.accountKeys| >= n;
            var known := keys && forall s :: s in signers ==> Requires(m.accountKeys, n, s.publicKey);
            var r := SignOutcome(sigs, m, signers).1;
            && (r == Failure(NoSignaturesRequired) <==> n == 0)
            && (r == Failure(NotEnoughKeys) <==> n > 0 && !keys)
            && (r == Failure(UnknownSigner) <==> n > 0 && keys && !known)
            && (n > 0 && known && Marshal(m).Failure? ==> r == Failure(Marshal(m).error))
            && (r == Failure(SignerFailed) <==>
                && n > 0 && known && Marshal(m).Success?
                && exists s :: s in signers && s.sign(Marshal(m).value).None?)
            && (r == Success(()) <==>
                && n > 0 && known && Marshal(m).Success?
                && forall s :: s in signers ==> s.sign(Marshal(m).value).Some?)
  {
    MarshalErrors(m);
    hide Marshal, FillSlots, SlotOf, Known, Requires;
    var n := m.header.numRequiredSignatures;
    if |m.accountKeys| >= n {
      KnownExactly(m.accountKeys, n, signers);
      if Known(m.accountKeys, n, signers) && Marshal(m).Success? {
        FillsExactly(Grown(sigs, n), m.accountKeys, n, Marshal(m).value, signers);
      }
    }
  }

  lemma KnownExactly(keys: seq<PublicKey>, n: nat, signers: seq<Signer>)
    requires n <= |keys|
    ensures Known(keys, n, signers) <==> forall s :: s in signers ==> Requires(keys, n, s.publicKey)
  {
    forall pk: PublicKey ensures SlotOf(keys, n, pk).Some? <==> Requires(keys, n, pk) {
      if SlotOf(keys, n, pk).Some? {
        assert keys[..n][SlotOf(keys, n, pk).value] == pk;
      }
    }
    hide SlotOf, Requires;
  }

  lemma {:induction false} FillsExactly(sigs: seq<Signature>, keys: seq<PublicKey>, n: nat, body: seq<byte>,
                                        signers: seq<Signer>)
    requires n <= |keys| && n <= |sigs| && Known(keys, n, signers)
    ensures FillSlots(sigs, keys, n, body, signers).1 <==> forall s :: s in signers ==> s.sign(body).Some?
    decreases |signers|
  {
    if |signers| > 0 {
      assert signers == [signers[0]] + signers[1..];
      if signers[0].sign(body).Some? {
        var slot := SlotOf(keys, n, signers[0].publicKey).value;
        FillsExactly(sigs[slot := signers[0].sign(body).value], keys, n, body, signers[1..]);
      }
    }
  }

  /** A call refused for an unknown signer leaves the slots as they were exactly when there were enough. */
  lemma UnknownSignerLeavesSlots(sigs: seq<Signature>, m: Message, signers: seq<Signer>)
    requires SignOutcome(sigs, m, signers).1 == Failure(UnknownSigner)
    ensures SignOutcome(sigs, m, signers).0 == sigs <==> |sigs| >= m.header.numRequiredSignatures
  {
    hide Marshal;
    MarshalErrors(m);
  }

  lemma MarshalErrors(m: Message)
    ensures Marshal(m).Failure? ==> Marshal(m).error in {UnsupportedVersion, UnexpectedLookups, TooLong}
  {
  }

  /** The same when it is refused because the message does not marshal. */
  lemma UnmarshalableLeavesSlots(sigs: seq<Signature>, m: Message, signers: seq<Signer>)
    requires Marshal(m).Failure? && SignOutcome(sigs, m, signers).1 == Failure(Marshal(m).error)
    ensures SignOutcome(sigs, m, signers).0 == sigs <==> |sigs| >= m.header.numRequiredSignatures
  {
    hide Marshal;
    MarshalErrors(m);
  }

  /** When the message itself asks for no signature or lists too few keys, nothing is touched. */
  lemma UnsignableLeavesSlots(sigs: seq<Signature>, m: Message, signers: seq<Signer>)
    requires SignOutcome(sigs, m, signers).1 == Failure(NoSignaturesRequired)
             || SignOutcome(sigs, m, signers).1 == Failure(NotEnoughKeys)
    ensures SignOutcome(sigs, m, signers).0 == sigs
  {
    hide Marshal;
    MarshalErrors(m);
  }

  /** The signers before the first that fails, who have filled their slots by then. */
  function Willing(signers: seq<Signer>, body: seq<byte>): (w: seq<Signer>)
    ensures forall i :: 0 <= i < |w| ==> w[i] in signers && w[i].sign(body).Some?
  {
    if |signers| == 0 || signers[0].sign(body).None? then [] else [signers[0]] + Willing(signers[1..], body)
  }

  /**
   A call refused by a failing signer leaves the slots as they were exactly when there were enough and
   every signer before the failing one produced what its slot already held.
   */
  lemma FailedSignerLeavesSlots(sigs: seq<Signature>, m: Message, signers: seq<Signer>, f: PublicKey -> Signature)
    requires SignOutcome(sigs, m, signers).1 == Failure(SignerFailed)
    requires Marshal(m).Success? ==> Agree(signers, f, Marshal(m).value)
    ensures Marshal(m).Success? && |m.accountKeys| >= m.header.numRequiredSignatures
    ensures SignOutcome(sigs, m, signers).0 == sigs <==>
            && |sigs| >= m.header.numRequiredSignatures
            && SignedBy(sigs, sigs, m.accountKeys, m.header.numRequiredSignatures, f,
                        KeysOf(Willing(signers, Marshal(m).value)))
  {
    hide Marshal;
    MarshalErrors(m);
    var n := m.header.numRequiredSignatures;
    FillSlotsWilling(Grown(sigs, n), m.accountKeys, n, Marshal(m).value, signers, f);
  }

  /** Whether or not a signer fails, the slots end signed by those before it. */
  lemma {:induction false} FillSlotsWilling(sigs: seq<Signature>, keys: seq<PublicKey>, n: nat, body: seq<byte>,
                                            signers: seq<Signer>, f: PublicKey -> Signature)
    requires n <= |keys| && n <= |sigs| && Known(keys, n, signers) && Agree(signers, f, body)
    ensures SignedBy(sigs, FillSlots(sigs, keys, n, body, signers).0, keys, n, f, KeysOf(Willing(signers, body)))
    decreases |signers|
  {
    if |signers| > 0 && signers[0].sign(body).Some? {
      var pk := signers[0].publicKey;
      var slot := SlotOf(keys, n, pk).value;
      var rest := Willing(signers[1..], body);
      FillSlotsWilling(sigs[slot := f(pk)], keys, n, body, signers[1..], f);
      KeysOfCons(signers[0], rest);
      assert Willing(signers, body) == [signers[0]] + rest;
    }
  }

  lemma KeysOfCons(s: Signer, rest: seq<Signer>)
    ensures KeysOf([s] + rest) == {s.publicKey} + KeysOf(rest)
  {
    var all := [s] + rest;
    forall k | k in KeysOf(all) ensures k in {s.publicKey} + KeysOf(rest) {
      var i :| 0 <= i < |all| && k == all[i].publicKey;
      assert i > 0 ==> rest[i - 1] == all[i];
    }
    forall k | k in KeysOf(rest) ensures k in KeysOf(all) {
      var i :| 0 <= i < |rest| && k == rest[i].publicKey;
      assert all[i + 1] == rest[i];
    }
    assert all[0] == s;
  }
}

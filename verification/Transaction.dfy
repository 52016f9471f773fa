/**
 The Transaction object of transaction.go: in-place signing, marshalling, decoding and local
 verification, each proved to do what modules TxCodec and Signing specify.
 */
module Transaction {
  import opened Wire
  import opened Bincode
  import opened Message
  import opened MessageCodec
  import opened MessageCode
  import opened TxCodec
  import opened Signing

  method ReadSignatures(d: Decoder, n: nat) returns (r: Result<seq<Signature>>)
    requires d.Valid()
    modifies d`pos
    ensures d.Valid() && d.Yields(GetSignatures(n, d.buf, old(d.pos)), r)
  {
    var sigs: seq<Signature> := [];
    for i := 0 to n
      invariant d.Valid()
      invariant GetAll(GetSignature, d.buf, d.pos, n - i, sigs) == GetAll(GetSignature, d.buf, old(d.pos), n, [])
    {
      var b :- d.ReadBytes(64);
      sigs := sigs + [b];
    }
    return Success(sigs);
  }

  method ReadSignatureVec(d: Decoder) returns (r: Result<seq<Signature>>)
    requires d.Valid()
    modifies d`pos
    ensures d.Valid() && d.Yields(GetSignatureVec(d.buf, old(d.pos)), r)
  {
    var n :- d.ReadShortvec();
    r := ReadSignatures(d, n);
  }

  /** Reads one transaction from the stream, leaving the cursor behind it. */
  method DecodeTransaction(d: Decoder) returns (r: Result<Tx>)
    requires d.Valid()
    modifies d`pos
    ensures d.Valid() && d.Yields(GetTx(d.buf, old(d.pos)), r)
  {
    hide GetMessage, GetSignatures, GetSignatureVec;
    var first :- d.PeekUint8();
    if first == 0x81 {
      var msg :- DecodeMessage(d);
      var sigs :- ReadSignatures(d, msg.header.numRequiredSignatures);
      return Success(Tx(sigs, msg));
    }
    var sigs :- ReadSignatureVec(d);
    var msg :- DecodeMessage(d);
    return Success(Tx(sigs, msg));
  }

  method WriteSignatures(sigs: seq<Signature>, e: Encoder)
    modifies e
    ensures e.buf == old(e.buf) + PutSignatures(sigs)
  {
    for i := 0 to |sigs|
      invariant e.buf == old(e.buf) + PutAll(PutSignature, sigs[..i])
    {
      PutAllStep(PutSignature, sigs, i);
      e.WriteBytes(sigs[i]);
    }
    assert sigs[..|sigs|] == sigs;
  }

  method EncodeSignedLast(tx: Tx) returns (r: Result<seq<byte>>)
    requires Validate(tx.message).None?
    ensures r == if Fits(tx.message) then Success(PutSignedLast(tx)) else Failure(TooLong)
  {
    hide PutMessage, Fits, PutSignatures;
    var e := new Encoder();
    var _ :- MarshalInto(tx.message, e);
    assert e.buf == PutMessage(tx.message);
    WriteSignatures(tx.signatures, e);
    return Success(e.buf);
  }

  method EncodeSignedFirst(tx: Tx) returns (r: Result<seq<byte>>)
    requires Validate(tx.message).None? && |tx.signatures| <= 0xFFFF
    ensures r == if Fits(tx.message) then Success(PutSignedFirst(tx)) else Failure(TooLong)
  {
    hide PutMessage, Fits;
    var e := new Encoder();
    e.WriteShortvec(|tx.signatures|);
    WriteSignatures(tx.signatures, e);
    assert e.buf == PutSignatureVec(tx.signatures);
    var _ :- MarshalInto(tx.message, e);
    return Success(e.buf);
  }

  class Transaction {
    var signatures: seq<Signature>
    var message: Message

    /** An unsigned transaction: one empty slot for each required signer. */
    constructor (m: Message)
      ensures message == m && signatures == EmptySlots(m.header.numRequiredSignatures)
    {
      message := m;
      signatures := EmptySlots(m.header.numRequiredSignatures);
    }

    function Value(): (r: Tx)
      reads this
    {
      Tx(signatures, message)
    }

    /**
     The size computed without encoding is the length of the encoding, for every transaction with
     fewer than 16384 signatures; the signature count is sized for at most two bytes.
     */
    method SerializedSize() returns (sz: nat)
      ensures Validate(message).None? ==>
                (sz == |PutTx(Value())| <==> message.version == VERSION_1 || |signatures| < 16384)
      ensures MarshalTx(Value()).Success? ==> sz == |PutTx(Value())|
    {
      var n := |signatures|;
      PutAllLength(PutSignature, signatures, 64);
      var body := MessageCode.SerializedSize(message);
      if message.version == VERSION_1 {
        return body + n * 64;
      }
      var svLen := 1;
      if n >= 128 {
        svLen := 2;
      }
      return svLen + n * 64 + body;
    }

    /**
     Fills the slots of the signers in place. The slots grow before the signers are checked, so a
     refused call can leave more empty slots than it found.
     */
    method Sign(signers: seq<Signer>) returns (r: Result<()>)
      modifies this`signatures
      ensures (signatures, r) == SignOutcome(old(signatures), message, signers)
    {
      var numReq: nat := message.header.numRequiredSignatures;
      if numReq == 0 {
        return Failure(NoSignaturesRequired);
      }
      var keys := message.accountKeys;
      if |keys| < numReq {
        return Failure(NotEnoughKeys);
      }
      if |signatures| < numReq {
        signatures := signatures + EmptySlots(numReq - |signatures|);
      }
      assert signatures == Grown(old(signatures), numReq);

      var index := IndexKeys(keys, numReq);
      var slots: seq<nat> := [];
      for i := 0 to |signers|
        invariant |slots| == i
        invariant forall j :: 0 <= j < i ==> SlotOf(keys, numReq, signers[j].publicKey) == Some(slots[j])
      {
        if signers[i].publicKey !in index {
          assert SlotOf(keys, numReq, signers[i].publicKey).None?;
          return Failure(UnknownSigner);
        }
        slots := slots + [index[signers[i].publicKey]];
      }

      var body :- MarshalMessage(message);
      r := Fill(signers, slots, body);
    }

    method Fill(signers: seq<Signer>, slots: seq<nat>, body: seq<byte>) returns (r: Result<()>)
      requires message.header.numRequiredSignatures <= |message.accountKeys|
      requires message.header.numRequiredSignatures <= |signatures|
      requires |slots| == |signers|
      requires forall j :: 0 <= j < |signers| ==>
                 SlotOf(message.accountKeys, message.header.numRequiredSignatures, signers[j].publicKey)
                   == Some(slots[j])
      modifies this`signatures
      ensures var (filled, ok) := FillSlots(old(signatures), message.accountKeys,
                                            message.header.numRequiredSignatures, body, signers);
              signatures == filled && r == if ok then Success(()) else Failure(SignerFailed)
    {
      ghost var keys, n := message.accountKeys, message.header.numRequiredSignatures;
      for i := 0 to |signers|
        invariant |signatures| == |old(signatures)|
        invariant FillSlots(signatures, keys, n, body, signers[i..])
                  == FillSlots(old(signatures), keys, n, body, signers)
      {
        assert signers[i..][0] == signers[i] && signers[i..][1..] == signers[i + 1..];
        var sig := signers[i].sign(body);
        if sig.None? {
          return Failure(SignerFailed);
        }
        signatures := signatures[slots[i] := sig.value];
      }
      return Success(());
    }

    method Marshal() returns (r: Result<seq<byte>>)
      ensures r == MarshalTx(Value())
    {
      if |signatures| > 0xFFFF {
        return Failure(TooLong);
      }
      var refusal := Validate(message);
      if refusal.Some? {
        return Failure(refusal.value);
      }
      if |signatures| != message.header.numRequiredSignatures {
        return Failure(SignatureCountMismatch);
      }
      if message.version == VERSION_1 {
        r := EncodeSignedLast(Value());
      } else {
        r := EncodeSignedFirst(Value());
      }
    }

    /** Replaces this transaction by the decoded one; on refusal it is left as it was. */
    method UnmarshalBinary(data: seq<byte>) returns (r: Result<()>)
      modifies this
      ensures match UnmarshalTx(data)
              case Success(tx) => r == Success(()) && Value() == tx
              case Failure(e) => r == Failure(e) && Value() == old(Value())
    {
      if |data| == 0 {
        return Failure(EmptyInput);
      }
      var d := new Decoder(data);
      var decoded :- DecodeTransaction(d);
      if d.Remaining() != 0 {
        return Failure(TrailingBytes);
      }
      signatures, message := decoded.signatures, decoded.message;
      return Success(());
    }

    method VerifySignatures(verify: (PublicKey, seq<byte>, Signature) -> bool) returns (r: Result<()>)
      ensures r == VerifyOutcome(Value(), verify)
    {
      var numReq: nat := message.header.numRequiredSignatures;
      if |signatures| < numReq {
        return Failure(NotEnoughSignatures);
      }
      if |message.accountKeys| < numReq {
        return Failure(NotEnoughKeys);
      }
      var body :- MarshalMessage(message);
      for i := 0 to numReq
        invariant forall j :: 0 <= j < i ==>
                    signatures[j] == ZERO_SIGNATURE || verify(message.accountKeys[j], body, signatures[j])
      {
        if signatures[i] == ZERO_SIGNATURE {
          continue;
        }
        if !verify(message.accountKeys[i], body, signatures[i]) {
          return Failure(BadSignature);
        }
      }
      return Success(());
    }
  }

  /** The map from required key to slot; a later position of the same key replaces an earlier one. */
  method IndexKeys(keys: seq<PublicKey>, n: nat) returns (index: map<PublicKey, nat>)
    requires n <= |keys|
    ensures forall pk :: SlotOf(keys, n, pk) == if pk in index then Some(index[pk]) else None
  {
    index := map[];
    for i := 0 to n
      invariant forall pk :: SlotOf(keys, i, pk) == if pk in index then Some(index[pk]) else None
    {
      index := index[keys[i] := i];
    }
  }
}

/** Proof-of-History entries and their bincode stream layout (entry.go). */
module Entry {
  import opened Wire
  import opened Bincode
  import opened Message
  import opened TxCodec
  import opened Transaction
  import opened Layouts

  const MAX_ENTRIES_PER_DECODE: nat := 1_000_000
  const MAX_TX_PER_ENTRY: nat := 10_000

  datatype Entry = Entry(numHashes: u64, hash: Hash, transactions: seq<Tx>)

  function PutTxs(txs: seq<Tx>): (r: seq<byte>) {
    PutAll(PutTx, txs)
  }

  function GetTxs(n: nat, buf: seq<byte>, pos: nat): (r: Parsed<seq<Tx>>) {
    GetAll(GetTx, buf, pos, n, [])
  }

  /** num_hashes, hash, and a u64-counted vector of transactions in wire format. */
  function PutEntry(e: Entry): (r: seq<byte>) {
    LE(e.numHashes, 8) + (e.hash + (LE(|e.transactions|, 8) + PutTxs(e.transactions)))
  }

  function GetEntry(buf: seq<byte>, pos: nat): (r: Parsed<Entry>) {
    var (n, p1) :- GetU64(buf, pos);
    var (hash, p2) :- GetBytes(buf, p1, 32);
    var (txCount, p3) :- GetU64(buf, p2);
    if txCount > MAX_TX_PER_ENTRY then Err(CountLimit)
    else
      var (txs, p4) :- GetTxs(txCount, buf, p3);
      Ok(Entry(n, hash, txs), p4)
  }

  function PutEntries(es: seq<Entry>): (r: seq<byte>) {
    LE(|es|, 8) + PutAll(PutEntry, es)
  }

  function GetEntries(data: seq<byte>): (r: Result<seq<Entry>>) {
    match GetU64(data, 0)
    case Err(e) => Failure(e)
    case Ok(n, p) =>
      if n > MAX_ENTRIES_PER_DECODE then Failure(CountLimit)
      else
        match GetAll(GetEntry, data, p, n, [])
        case Err(e) => Failure(e)
        case Ok(es, q) => if q == |data| then Success(es) else Failure(TrailingBytes)
  }

  ghost predicate EntryOk(e: Entry) {
    |e.transactions| <= MAX_TX_PER_ENTRY && AllOk(tx => Transmissible(tx), e.transactions)
  }

  lemma TxsComplete()
    ensures Complete(GetTx, PutTx, tx => Transmissible(tx))
  {
    hide At, GetTx, PutTx, Transmissible;
    forall buf: seq<byte>, pos: nat, tx | Transmissible(tx) && At(buf, pos, PutTx(tx))
      ensures GetTx(buf, pos) == Ok(tx, pos + |PutTx(tx)|)
    {
      GetTxComplete(buf, pos, tx);
    }
  }

  lemma GetTxsComplete(buf: seq<byte>, pos: nat, txs: seq<Tx>)
    requires AllOk(tx => Transmissible(tx), txs) && At(buf, pos, PutTxs(txs))
    ensures GetTxs(|txs|, buf, pos) == Ok(txs, pos + |PutTxs(txs)|)
  {
    TxsComplete();
    hide GetTx, PutTx, Transmissible, At;
    GetAllComplete(GetTx, PutTx, tx => Transmissible(tx), buf, pos, txs, []);
    assert [] + txs == txs;
  }

  lemma GetEntryComplete(buf: seq<byte>, pos: nat, e: Entry)
    requires EntryOk(e) && At(buf, pos, PutEntry(e))
    ensures GetEntry(buf, pos) == Ok(e, pos + |PutEntry(e)|)
  {
    hide At, GetTxs, PutTxs, GetU64, GetBytes, Transmissible, AllOk;
    var nh, h, c, txs := LE(e.numHashes, 8), e.hash, LE(|e.transactions|, 8), PutTxs(e.transactions);
    AtCat(buf, pos, nh, h + (c + txs));
    AtCat(buf, pos + 8, h, c + txs);
    AtCat(buf, pos + 40, c, txs);
    GetU64Exact(buf, pos, e.numHashes);
    GetFixedExact(buf, pos + 8, 32, h);
    GetU64Exact(buf, pos + 40, |e.transactions|);
    GetTxsComplete(buf, pos + 48, e.transactions);
  }

  /**
   Decoding inverts the documented layout for every list of entries within the limits and every mix
   of transaction versions, and refuses anything that follows it.
   */
  lemma EntriesRoundTrip(es: seq<Entry>, suffix: seq<byte>)
    requires |es| <= MAX_ENTRIES_PER_DECODE && AllOk(e => EntryOk(e), es)
    ensures GetEntries(PutEntries(es)) == Success(es)
    ensures suffix != [] ==> GetEntries(PutEntries(es) + suffix) == Failure(TrailingBytes)
  {
    EntriesDecode(es, []);
    EntriesDecode(es, suffix);
    assert PutEntries(es) + [] == PutEntries(es);
  }

  lemma EntriesDecode(es: seq<Entry>, suffix: seq<byte>)
    requires |es| <= MAX_ENTRIES_PER_DECODE && AllOk(e => EntryOk(e), es)
    ensures GetEntries(PutEntries(es) + suffix) == if suffix == [] then Success(es) else Failure(TrailingBytes)
  {
    hide GetEntry, PutEntry, EntryOk;
    var data := PutEntries(es) + suffix;
    AtWhole(PutEntries(es), suffix);
    AtCat(data, 0, LE(|es|, 8), PutAll(PutEntry, es));
    hide At, GetU64;
    GetU64Exact(data, 0, |es|);
    forall buf: seq<byte>, pos: nat, e | EntryOk(e) && At(buf, pos, PutEntry(e))
      ensures GetEntry(buf, pos) == Ok(e, pos + |PutEntry(e)|)
    {
      GetEntryComplete(buf, pos, e);
    }
    GetAllComplete(GetEntry, PutEntry, e => EntryOk(e), data, 8, es, []);
    assert [] + es == es;
  }

  // ---------------------------------------------------------------- layout

  function TxSize(tx: Tx): (n: nat) {
    |PutTx(tx)|
  }

  function EntrySize(e: Entry): (n: nat) {
    48 + Offset(TxSize, e.transactions, |e.transactions|)
  }

  /** The hash count, the hash, the number of transactions, and the transactions one behind the other. */
  ghost predicate EntryStands(b: seq<byte>, p: nat, e: Entry) {
    && At(b, p, LE(e.numHashes, 8)) && At(b, p + 8, e.hash) && At(b, p + 40, LE(|e.transactions|, 8))
    && forall i: nat :: i < |e.transactions| ==>
         At(b, p + 48 + Offset(TxSize, e.transactions, i), PutTx(e.transactions[i]))
  }

  lemma EntryLayout(b: seq<byte>, p: nat, e: Entry)
    requires At(b, p, PutEntry(e))
    ensures EntryStands(b, p, e)
  {
    hide At, PutTx;
    var nh, h, c, txs := LE(e.numHashes, 8), e.hash, LE(|e.transactions|, 8), PutTxs(e.transactions);
    AtCat(b, p, nh, h + (c + txs));
    AtCat(b, p + 8, h, c + txs);
    AtCat(b, p + 40, c, txs);
    ElementsStand(PutTx, TxSize, e.transactions, b, p + 48);
  }

  lemma EntryLength(e: Entry)
    ensures |PutEntry(e)| == EntrySize(e)
  {
    hide PutTx;
    var txs := e.transactions;
    assert txs[..|txs|] == txs;
    PrefixLength(PutTx, TxSize, txs, |txs|);
  }

  /** The documented layout: a count of eight bytes, and the entries one behind the other. */
  lemma EntriesLayout(es: seq<Entry>)
    ensures At(PutEntries(es), 0, LE(|es|, 8))
    ensures forall i: nat :: i < |es| ==> EntryStands(PutEntries(es), 8 + Offset(EntrySize, es, i), es[i])
    ensures |PutEntries(es)| == 8 + Offset(EntrySize, es, |es|)
  {
    hide At, PutEntry, EntryStands, EntrySize, LE;
    var b := PutEntries(es);
    AtWhole(b, []);
    assert b + [] == b;
    AtCat(b, 0, LE(|es|, 8), PutAll(PutEntry, es));
    forall e ensures |PutEntry(e)| == EntrySize(e) {
      EntryLength(e);
    }
    ElementsStand(PutEntry, EntrySize, es, b, 8);
    forall i: nat | i < |es| ensures EntryStands(b, 8 + Offset(EntrySize, es, i), es[i]) {
      EntryLayout(b, 8 + Offset(EntrySize, es, i), es[i]);
    }
  }

  // ---------------------------------------------------------------- limits

  /** An entry that could be written: its transactions are transmissible, and their number has 64 bits. */
  ghost predicate Written(e: Entry) {
    |e.transactions| < 0x1_0000_0000_0000_0000 && AllOk(tx => Transmissible(tx), e.transactions)
  }

  lemma EntryOkExactly(e: Entry)
    ensures EntryOk(e) <==> Written(e) && |e.transactions| <= 10_000
  {
  }

  lemma OverlongEntry(buf: seq<byte>, pos: nat, e: Entry)
    requires Written(e) && |e.transactions| > 10_000 && At(buf, pos, PutEntry(e))
    ensures GetEntry(buf, pos) == Err(CountLimit)
  {
    hide At, GetTxs, PutTxs, GetU64, GetBytes, Transmissible, AllOk;
    var nh, h, c, txs := LE(e.numHashes, 8), e.hash, LE(|e.transactions|, 8), PutTxs(e.transactions);
    AtCat(buf, pos, nh, h + (c + txs));
    AtCat(buf, pos + 8, h, c + txs);
    AtCat(buf, pos + 40, c, txs);
    GetU64Exact(buf, pos, e.numHashes);
    GetFixedExact(buf, pos + 8, 32, h);
    GetU64Exact(buf, pos + 40, |e.transactions|);
  }

  lemma {:induction false} OverlongEntryRefused(buf: seq<byte>, pos: nat, es: seq<Entry>, acc: seq<Entry>)
    requires AllOk(e => Written(e), es) && At(buf, pos, PutAll(PutEntry, es))
    requires exists e :: e in es && |e.transactions| > 10_000
    ensures GetAll(GetEntry, buf, pos, |es|, acc) == Err(CountLimit)
    decreases |es|
  {
    hide At, GetEntry, PutEntry, EntryOk, Written;
    var e, rest := es[0], es[1..];
    AtCat(buf, pos, PutEntry(e), PutAll(PutEntry, rest));
    assert es == [e] + rest;
    assert Written(e);
    if |e.transactions| > 10_000 {
      OverlongEntry(buf, pos, e);
    } else {
      EntryOkExactly(e);
      GetEntryComplete(buf, pos, e);
      OverlongEntryRefused(buf, pos + |PutEntry(e)|, rest, acc + [e]);
    }
  }

  /**
   The limits, exactly: the layout of any list of entries decodes to that list if there are at most a
   million entries with at most ten thousand transactions each, and is refused for a count otherwise.
   */
  lemma LimitsExactly(es: seq<Entry>)
    requires |es| < 0x1_0000_0000_0000_0000 && AllOk(e => Written(e), es)
    ensures GetEntries(PutEntries(es)) ==
            if |es| <= 1_000_000 && forall e :: e in es ==> |e.transactions| <= 10_000 then Success(es)
            else Failure(CountLimit)
  {
    hide At, GetEntry, PutEntry, EntryOk, Written, GetU64;
    var data := PutEntries(es);
    forall e | e in es ensures EntryOk(e) <==> |e.transactions| <= 10_000 {
      EntryOkExactly(e);
    }
    if |es| <= 1_000_000 && forall e :: e in es ==> |e.transactions| <= 10_000 {
      EntriesRoundTrip(es, []);
    } else {
      AtWhole(data, []);
      assert data + [] == data;
      AtCat(data, 0, LE(|es|, 8), PutAll(PutEntry, es));
      GetU64Exact(data, 0, |es|);
      if |es| <= 1_000_000 {
        OverlongEntryRefused(data, 8, es, []);
      }
    }
  }

  // ---------------------------------------------------------------- re-encoding

  lemma TxsLengthen()
    ensures Lengthens(GetTx, PutTx, FrontSignedV1)
  {
    hide At, GetTx, PutTx, FrontSignedV1;
    forall buf: seq<byte>, pos: nat | GetTx(buf, pos).Ok?
      ensures pos <= GetTx(buf, pos).pos <= |buf|
      ensures if FrontSignedV1(buf, pos) then GetTx(buf, pos).pos > pos + |PutTx(GetTx(buf, pos).value)|
              else At(buf, pos, PutTx(GetTx(buf, pos).value))
                   && GetTx(buf, pos).pos == pos + |PutTx(GetTx(buf, pos).value)|
    {
      ReadOrLonger(buf, pos);
    }
  }

  /** The entry read at pos has a transaction that is a v1 message behind leading signatures. */
  ghost predicate OddEntry(buf: seq<byte>, pos: nat) {
    GetU64(buf, pos + 40).Ok? && AnyOdd(GetTx, FrontSignedV1, buf, pos + 48, GetU64(buf, pos + 40).value)
  }

  /** How an entry is read, field by field. */
  lemma EntryStages(buf: seq<byte>, pos: nat)
    requires GetEntry(buf, pos).Ok?
    ensures var Ok(e, p) := GetEntry(buf, pos);
            && GetU64(buf, pos) == Ok(e.numHashes, pos + 8) && GetBytes(buf, pos + 8, 32) == Ok(e.hash, pos + 40)
            && pos + 48 <= |buf| && GetU64(buf, pos + 40).Ok? && GetU64(buf, pos + 40).pos == pos + 48
            && GetTxs(GetU64(buf, pos + 40).value, buf, pos + 48) == Ok(e.transactions, p)
  {
    hide GetTxs, LEValue, Pow256;
  }

  lemma EntryLengthens(buf: seq<byte>, pos: nat)
    requires GetEntry(buf, pos).Ok?
    ensures var Ok(e, p) := GetEntry(buf, pos);
            && pos <= p <= |buf|
            && if OddEntry(buf, pos) then p > pos + |PutEntry(e)|
               else At(buf, pos, PutEntry(e)) && p == pos + |PutEntry(e)|
  {
    hide At, GetEntry, GetU64, GetBytes, GetTx, PutTx, PutAll, AnyOdd;
    EntryStages(buf, pos);
    var Ok(e, p) := GetEntry(buf, pos);
    var n := GetU64(buf, pos + 40).value;
    TxsLengthen();
    var txs := GetAllLengthens(GetTx, PutTx, FrontSignedV1, buf, pos + 48, n, []);
    assert [] + txs == txs;
    GetU64Exact(buf, pos, e.numHashes);
    GetFixedExact(buf, pos + 8, 32, e.hash);
    GetU64Exact(buf, pos + 40, n);
    var nh, c, ts := LE(e.numHashes, 8), LE(n, 8), PutTxs(e.transactions);
    AtCat(buf, pos, nh, e.hash + (c + ts));
    AtCat(buf, pos + 8, e.hash, c + ts);
    AtCat(buf, pos + 40, c, ts);
  }

  /** Some accepted transaction of data is a v1 message behind leading signatures. */
  ghost predicate OddEntries(data: seq<byte>) {
    GetU64(data, 0).Ok? && AnyOdd(GetEntry, OddEntry, data, 8, GetU64(data, 0).value)
  }

  /**
   Accepted bytes are the layout of the decoded entries if and only if no v1 message stands behind
   leading signatures; otherwise they are longer.
   */
  lemma EntriesReencoding(data: seq<byte>)
    requires GetEntries(data).Success?
    ensures PutEntries(GetEntries(data).value) == data <==> !OddEntries(data)
    ensures OddEntries(data) ==> |PutEntries(GetEntries(data).value)| < |data|
  {
    hide At, GetEntry, PutEntry, GetU64, OddEntry, AnyOdd, PutAll;
    EntriesStages(data);
    var n := GetU64(data, 0).value;
    EntriesLengthen();
    var es := GetAllLengthens(GetEntry, PutEntry, OddEntry, data, 8, n, []);
    assert [] + es == es;
    GetU64Exact(data, 0, n);
    AtCat(data, 0, LE(n, 8), PutAll(PutEntry, es));
    if !OddEntries(data) {
      AtAll(data, PutEntries(es));
    }
  }

  lemma EntriesStages(data: seq<byte>)
    requires GetEntries(data).Success?
    ensures GetU64(data, 0).Ok? && GetU64(data, 0).pos == 8 <= |data|
    ensures GetAll(GetEntry, data, 8, GetU64(data, 0).value, []) == Ok(GetEntries(data).value, |data|)
  {
    hide GetEntry, GetAll, LEValue, Pow256;
  }

  lemma EntriesLengthen()
    ensures Lengthens(GetEntry, PutEntry, OddEntry)
  {
    hide At, GetEntry, PutEntry, OddEntry;
    forall buf: seq<byte>, pos: nat | GetEntry(buf, pos).Ok?
      ensures pos <= GetEntry(buf, pos).pos <= |buf|
      ensures if OddEntry(buf, pos) then GetEntry(buf, pos).pos > pos + |PutEntry(GetEntry(buf, pos).value)|
              else At(buf, pos, PutEntry(GetEntry(buf, pos).value))
                   && GetEntry(buf, pos).pos == pos + |PutEntry(GetEntry(buf, pos).value)|
    {
      EntryLengthens(buf, pos);
    }
  }

  // ---------------------------------------------------------------- code

  method DecodeEntry(d: Decoder) returns (r: Result<Entry>)
    requires d.Valid()
    modifies d`pos
    ensures d.Valid() && d.Yields(GetEntry(d.buf, old(d.pos)), r)
  {
    hide GetTx;
    var numHashes :- d.ReadUint64();
    var hash :- d.ReadBytes(32);
    var txCount: nat :- d.ReadUint64();
    if txCount > MAX_TX_PER_ENTRY {
      return Failure(CountLimit);
    }
    ghost var start := d.pos;
    var txs: seq<Tx> := [];
    for j := 0 to txCount
      invariant d.Valid()
      invariant GetAll(GetTx, d.buf, d.pos, txCount - j, txs) == GetAll(GetTx, d.buf, start, txCount, [])
    {
      var tx :- DecodeTransaction(d);
      txs := txs + [tx];
    }
    return Success(Entry(numHashes, hash, txs));
  }

  method DecodeEntries(data: seq<byte>) returns (r: Result<seq<Entry>>)
    ensures r == GetEntries(data)
  {
    hide GetEntry;
    var d := new Decoder(data);
    var entryCount: nat :- d.ReadUint64();
    if entryCount > MAX_ENTRIES_PER_DECODE {
      return Failure(CountLimit);
    }
    ghost var start := d.pos;
    var entries: seq<Entry> := [];
    for i := 0 to entryCount
      invariant d.Valid()
      invariant GetAll(GetEntry, data, d.pos, entryCount - i, entries) == GetAll(GetEntry, data, start, entryCount, [])
    {
      var e :- DecodeEntry(d);
      entries := entries + [e];
    }
    if d.Remaining() != 0 {
      return Failure(TrailingBytes);
    }
    return Success(entries);
  }
}

/**
 Byte strings, little-endian integers, compact-u16 (shortvec) lengths, and the notion of a
 lawful codec: a decoder that accepts exactly the encodings of the admissible values.

 Every decoder in this project is a function of a buffer and a cursor, as the repository's
 `Decoder` is; every encoder is a function from a value to bytes.
 */
module Wire {

  type byte = x: int | 0 <= x < 256
  type u16 = x: int | 0 <= x < 0x1_0000
  type u32 = x: int | 0 <= x < 0x1_0000_0000
  type u64 = x: int | 0 <= x < 0x1_0000_0000_0000_0000

  /** Why a decoder or encoder does not return a value, without the message text. */
  datatype Error =
    | ShortBuffer
    | InvalidShortvec
    | UnsupportedVersion
    | InvalidConfigMask
    | UnexpectedLookups
    | TooLong
    | SignatureCountMismatch
    | NoSignaturesRequired
    | NotEnoughKeys
    | NotEnoughSignatures
    | UnknownSigner
    | SignerFailed
    | BadSignature
    | NoInstructions
    | NilInstruction
    | NilAccountMeta
    | TooManyKeys
    | MissingKey
    | InstructionData
    | MissingTable
    | IndexOutOfRange
    | EmptyInput
    // A Go panic: no caller receives it as an error.
    | Panicked
    | TrailingBytes
    | CountLimit
    | InvalidBool
    | InvalidOptionTag
    | LengthExceedsInput
    | Custom
    | UnsupportedType

  /** The result of decoding at a cursor: a value and the cursor after it, or an error. */
  datatype Parsed<+T> = Ok(value: T, pos: nat) | Err(error: Error) {
    predicate IsFailure() {
      Err?
    }

    function PropagateFailure<U>(): (r: Parsed<U>)
      requires Err?
    {
      Err(error)
    }

    function Extract(): (r: (T, nat))
      requires Ok?
    {
      (value, pos)
    }
  }

  /** The result of an operation on a Decoder or Encoder object, which keeps its own cursor. */
  datatype Result<+T> = Success(value: T) | Failure(error: Error) {
    predicate IsFailure() {
      Failure?
    }

    function PropagateFailure<U>(): (r: Result<U>)
      requires Failure?
    {
      Failure(error)
    }

    function Extract(): (r: T)
      requires Success?
    {
      value
    }
  }

  datatype Option<+T> = None | Some(value: T)

  function ZeroBytes(n: nat): (b: seq<byte>)
    ensures |b| == n
    ensures forall i :: 0 <= i < n ==> b[i] == 0
  {
    if n == 0 then [] else [0] + ZeroBytes(n - 1)
  }

  /** 1 if b holds, else 0. */
  function One(b: bool): (r: nat) {
    if b then 1 else 0
  }

  // ---------------------------------------------------------------- encodings in a buffer

  /** The bytes e stand in buf at pos. */
  ghost predicate At(buf: seq<byte>, pos: nat, e: seq<byte>) {
    pos + |e| <= |buf| && buf[pos..pos + |e|] == e
  }

  lemma AtCat(buf: seq<byte>, pos: nat, a: seq<byte>, b: seq<byte>)
    ensures At(buf, pos, a + b) <==> At(buf, pos, a) && At(buf, pos + |a|, b)
  {
    var m, n := |a|, |a + b|;
    if At(buf, pos, a + b) {
      assert buf[pos..pos + m] == buf[pos..pos + n][..m] == a;
      assert buf[pos + m..pos + n] == buf[pos..pos + n][m..] == b;
    }
    if At(buf, pos, a) && At(buf, pos + m, b) {
      assert buf[pos..pos + n] == buf[pos..pos + m] + buf[pos + m..pos + n];
    }
  }

  lemma AtBound(buf: seq<byte>, pos: nat, e: seq<byte>)
    ensures At(buf, pos, e) ==> pos + |e| <= |buf|
  {
  }

  lemma AtWhole(e: seq<byte>, suffix: seq<byte>)
    ensures At(e + suffix, 0, e)
  {
    assert (e + suffix)[0..|e|] == e;
  }

  /**
   The decoding r at pos gives x if and only if x is admissible and its encoding e stands there,
   and it then consumes exactly that encoding.
   */
  ghost predicate Exactly<T>(r: Parsed<T>, x: T, buf: seq<byte>, pos: nat, e: seq<byte>, ok: bool) {
    && (r.Ok? && r.value == x <==> ok && At(buf, pos, e))
    && (r.Ok? && r.value == x ==> r.pos == pos + |e|)
  }

  // ---------------------------------------------------------------- little-endian integers

  function Pow256(k: nat): (p: nat)
    ensures p > 0
  {
    if k == 0 then 1 else 256 * Pow256(k - 1)
  }

  /** v mod 256^k as k bytes, least significant first. */
  function LE(v: nat, k: nat): (b: seq<byte>)
    ensures |b| == k
  {
    if k == 0 then [] else [v % 256] + LE(v / 256, k - 1)
  }

  /** The number whose little-endian bytes are b. */
  function LEValue(b: seq<byte>): (v: nat)
    ensures v < Pow256(|b|)
  {
    if |b| == 0 then 0 else b[0] + 256 * LEValue(b[1..])
  }

  lemma {:induction false} LERoundTrip(v: nat, k: nat)
    requires v < Pow256(k)
    ensures LEValue(LE(v, k)) == v
  {
    if k > 0 {
      assert v / 256 < Pow256(k - 1);
      LERoundTrip(v / 256, k - 1);
      assert LE(v, k)[1..] == LE(v / 256, k - 1);
    }
  }

  lemma {:induction false} LEValueRoundTrip(b: seq<byte>)
    ensures LE(LEValue(b), |b|) == b
  {
    if |b| > 0 {
      LEValueRoundTrip(b[1..]);
      assert LEValue(b) / 256 == LEValue(b[1..]);
      assert LE(LEValue(b), |b|) == [b[0]] + LE(LEValue(b[1..]), |b| - 1);
    }
  }

  lemma Pow256Widths()
    ensures Pow256(1) == 0x100
    ensures Pow256(2) == 0x1_0000
    ensures Pow256(4) == 0x1_0000_0000
    ensures Pow256(8) == 0x1_0000_0000_0000_0000
  {
    assert Pow256(2) == 256 * Pow256(1);
    assert Pow256(3) == 256 * Pow256(2);
    assert Pow256(4) == 256 * Pow256(3);
    assert Pow256(5) == 256 * Pow256(4);
    assert Pow256(6) == 256 * Pow256(5);
    assert Pow256(7) == 256 * Pow256(6);
  }

  // ---------------------------------------------------------------- primitive decoders

  function GetBytes(buf: seq<byte>, pos: nat, n: nat): (r: Parsed<seq<byte>>) {
    if pos + n <= |buf| then Ok(buf[pos..pos + n], pos + n) else Err(ShortBuffer)
  }

  /** An unsigned integer of k little-endian bytes. */
  function GetLE(buf: seq<byte>, pos: nat, k: nat): (r: Parsed<nat>) {
    if pos + k <= |buf| then Ok(LEValue(buf[pos..pos + k]), pos + k) else Err(ShortBuffer)
  }

  function GetU16(buf: seq<byte>, pos: nat): (r: Parsed<u16>) {
    Pow256Widths();
    var (v, p) :- GetLE(buf, pos, 2);
    Ok(v, p)
  }

  function GetU32(buf: seq<byte>, pos: nat): (r: Parsed<u32>) {
    Pow256Widths();
    var (v, p) :- GetLE(buf, pos, 4);
    Ok(v, p)
  }

  function GetU64(buf: seq<byte>, pos: nat): (r: Parsed<u64>) {
    Pow256Widths();
    var (v, p) :- GetLE(buf, pos, 8);
    Ok(v, p)
  }

  lemma GetU16Exact(buf: seq<byte>, pos: nat, v: u16)
    ensures Exactly(GetU16(buf, pos), v, buf, pos, LE(v, 2), true)
  {
    Pow256Widths();
    GetLEExact(buf, pos, 2, v);
  }

  lemma GetU32Exact(buf: seq<byte>, pos: nat, v: u32)
    ensures Exactly(GetU32(buf, pos), v, buf, pos, LE(v, 4), true)
  {
    Pow256Widths();
    GetLEExact(buf, pos, 4, v);
  }

  lemma GetU64Exact(buf: seq<byte>, pos: nat, v: u64)
    ensures Exactly(GetU64(buf, pos), v, buf, pos, LE(v, 8), true)
  {
    Pow256Widths();
    GetLEExact(buf, pos, 8, v);
  }

  function GetU8(buf: seq<byte>, pos: nat): (r: Parsed<byte>) {
    if pos < |buf| then Ok(buf[pos], pos + 1) else Err(ShortBuffer)
  }

  lemma GetU8Exact(buf: seq<byte>, pos: nat, v: byte)
    ensures Exactly(GetU8(buf, pos), v, buf, pos, [v], true)
  {
    if pos < |buf| {
      assert buf[pos..pos + 1] == [buf[pos]];
    }
  }

  lemma GetLEExact(buf: seq<byte>, pos: nat, k: nat, v: nat)
    ensures Exactly(GetLE(buf, pos, k), v, buf, pos, LE(v, k), v < Pow256(k))
  {
    if pos + k <= |buf| {
      LEValueRoundTrip(buf[pos..pos + k]);
    }
    if v < Pow256(k) {
      LERoundTrip(v, k);
    }
  }

  // ---------------------------------------------------------------- compact-u16

  /** The compact-u16 encoding: seven bits a byte, least significant group first. */
  function Shortvec(v: nat): (b: seq<byte>)
    ensures 1 <= |b| <= 3
  {
    if v < 0x80 then [v]
    else if v < 0x4000 then [v % 128 + 128, v / 128]
    else [v % 128 + 128, v / 128 % 128 + 128, v / 16384 % 256]
  }

  function GetShortvec(buf: seq<byte>, pos: nat): (r: Parsed<u16>) {
    if pos >= |buf| then Err(ShortBuffer)
    else
      var b0: int := buf[pos];
      if b0 < 0x80 then Ok(b0, pos + 1)
      else if pos + 1 >= |buf| then Err(ShortBuffer)
      else
        var b1: int := buf[pos + 1];
        if b1 < 0x80 then
          // A zero last group would be an overlong encoding.
          if b1 == 0 then Err(InvalidShortvec) else Ok(b0 % 128 + 128 * b1, pos + 2)
        else if pos + 2 >= |buf| then Err(ShortBuffer)
        else
          var b2: int := buf[pos + 2];
          if b2 == 0 || b2 > 3 then Err(InvalidShortvec)
          else Ok(b0 % 128 + 128 * (b1 % 128) + 16384 * b2, pos + 3)
  }

  lemma ShortvecDecodes(buf: seq<byte>, pos: nat, v: u16)
    requires At(buf, pos, Shortvec(v))
    ensures GetShortvec(buf, pos) == Ok(v, pos + |Shortvec(v)|)
  {
    var n: int, e := v, Shortvec(v);
    var window := buf[pos..pos + |e|];
    assert buf[pos] == window[0];
    if n >= 0x80 {
      assert buf[pos + 1] == window[1];
    }
    if n >= 0x4000 {
      assert buf[pos + 2] == window[2];
      assert n / 128 % 128 + 128 * (n / 16384) == n / 128;
    }
  }

  lemma ShortvecCanonical(buf: seq<byte>, pos: nat)
    requires GetShortvec(buf, pos).Ok?
    ensures At(buf, pos, Shortvec(GetShortvec(buf, pos).value))
    ensures GetShortvec(buf, pos).pos == pos + |Shortvec(GetShortvec(buf, pos).value)|
  {
    var b0: int := buf[pos];
    var v: int := GetShortvec(buf, pos).value;
    if b0 < 0x80 {
      assert Shortvec(v) == [buf[pos]] == buf[pos..pos + 1];
    } else {
      var b1: int := buf[pos + 1];
      if b1 < 0x80 {
        assert Shortvec(v) == [buf[pos], buf[pos + 1]] == buf[pos..pos + 2];
      } else {
        var b2: int := buf[pos + 2];
        assert v / 128 == b1 % 128 + 128 * b2;
        assert v / 16384 == b2;
        assert Shortvec(v) == [buf[pos], buf[pos + 1], buf[pos + 2]] == buf[pos..pos + 3];
      }
    }
  }

  /** Canonicity: a compact-u16 is accepted exactly when it is the encoding of its value. */
  lemma GetShortvecExact(buf: seq<byte>, pos: nat, v: u16)
    ensures Exactly(GetShortvec(buf, pos), v, buf, pos, Shortvec(v), true)
  {
    if GetShortvec(buf, pos).Ok? {
      ShortvecCanonical(buf, pos);
    }
    if At(buf, pos, Shortvec(v)) {
      ShortvecDecodes(buf, pos, v);
    }
  }

  /** Refused input: cut short behind bytes that announce more, or with a last group of zero or too large. */
  lemma ShortvecRefusals(b: seq<byte>)
    ensures GetShortvec(b, 0) == Err(ShortBuffer) <==> |b| < 3 && forall i :: 0 <= i < |b| ==> b[i] >= 128
    ensures GetShortvec(b, 0) == Err(InvalidShortvec) <==>
            || (|b| >= 2 && b[0] >= 128 && b[1] == 0)
            || (|b| >= 3 && b[0] >= 128 && b[1] >= 128 && (b[2] == 0 || b[2] > 3))
  {
  }

  // ---------------------------------------------------------------- lawful codecs

  /** Whatever g accepts at a cursor is an admissible value whose encoding stands there. */
  ghost predicate Sound<T(!new)>(g: (seq<byte>, nat) -> Parsed<T>, e: T -> seq<byte>, ok: T -> bool) {
    forall buf: seq<byte>, pos: nat {:trigger g(buf, pos)} :: g(buf, pos).Ok? ==>
      && ok(g(buf, pos).value)
      && At(buf, pos, e(g(buf, pos).value))
      && g(buf, pos).pos == pos + |e(g(buf, pos).value)|
  }

  /** The encoding of an admissible value is accepted wherever it stands, up to its last byte. */
  ghost predicate Complete<T(!new)>(g: (seq<byte>, nat) -> Parsed<T>, e: T -> seq<byte>, ok: T -> bool) {
    forall buf: seq<byte>, pos: nat, x: T {:trigger g(buf, pos), e(x)} ::
      ok(x) && At(buf, pos, e(x)) ==> g(buf, pos) == Ok(x, pos + |e(x)|)
  }

  ghost predicate Lawful<T(!new)>(g: (seq<byte>, nat) -> Parsed<T>, e: T -> seq<byte>, ok: T -> bool) {
    Sound(g, e, ok) && Complete(g, e, ok)
  }

  lemma LawfulDeterminate<T(!new)>(g: (seq<byte>, nat) -> Parsed<T>, e: T -> seq<byte>, ok: T -> bool,
                                   buf: seq<byte>, pos: nat, x: T, y: T)
    requires Lawful(g, e, ok) && ok(x) && ok(y)
    requires At(buf, pos, e(x)) && At(buf, pos, e(y))
    ensures x == y
  {
    assert g(buf, pos) == Ok(x, pos + |e(x)|);
  }

  /** The encodings of a lawful codec are self-delimiting: no proper prefix of one is accepted. */
  lemma LawfulPrefixFree<T(!new)>(g: (seq<byte>, nat) -> Parsed<T>, e: T -> seq<byte>, ok: T -> bool,
                                  x: T, buf: seq<byte>)
    requires Lawful(g, e, ok) && ok(x)
    requires buf < e(x)
    ensures g(buf, 0).Err?
  {
    var r := g(buf, 0);
    if r.Ok? {
      var whole := e(x);
      assert whole[0..|e(r.value)|] == buf[0..|e(r.value)|];
      LawfulDeterminate(g, e, ok, whole, 0, x, r.value);
    }
  }

  // ---------------------------------------------------------------- repetition

  function PutAll<T>(e: T -> seq<byte>, xs: seq<T>): (r: seq<byte>) {
    if |xs| == 0 then [] else e(xs[0]) + PutAll(e, xs[1..])
  }

  lemma {:induction false} PutAllSnoc<T>(e: T -> seq<byte>, xs: seq<T>, x: T)
    ensures PutAll(e, xs + [x]) == PutAll(e, xs) + e(x)
  {
    if |xs| == 0 {
      assert (xs + [x])[1..] == [];
    } else {
      PutAllSnoc(e, xs[1..], x);
      assert (xs + [x])[1..] == xs[1..] + [x];
    }
  }

  lemma PutAllCons<T>(e: T -> seq<byte>, x: T, xs: seq<T>)
    ensures PutAll(e, [x] + xs) == e(x) + PutAll(e, xs)
  {
    assert ([x] + xs)[1..] == xs;
  }

  lemma PutAllStep<T>(e: T -> seq<byte>, xs: seq<T>, i: nat)
    requires i < |xs|
    ensures PutAll(e, xs[..i + 1]) == PutAll(e, xs[..i]) + e(xs[i])
  {
    PutAllSnoc(e, xs[..i], xs[i]);
    assert xs[..i + 1] == xs[..i] + [xs[i]];
  }

  lemma {:induction false} PutAllLength<T>(e: T -> seq<byte>, xs: seq<T>, k: nat)
    requires forall x :: |e(x)| == k
    ensures |PutAll(e, xs)| == |xs| * k
  {
    if |xs| > 0 {
      PutAllLength(e, xs[1..], k);
    }
  }

  /** Decode n values in a row, appending them to acc, as the repository's count-driven loops do. */
  function GetAll<T>(g: (seq<byte>, nat) -> Parsed<T>, buf: seq<byte>, pos: nat, n: nat, acc: seq<T>):
    (r: Parsed<seq<T>>)
    decreases n
  {
    if n == 0 then Ok(acc, pos)
    else
      var (x, p) :- g(buf, pos);
      GetAll(g, buf, p, n - 1, acc + [x])
  }

  ghost predicate AllOk<T>(ok: T -> bool, xs: seq<T>) {
    forall i :: 0 <= i < |xs| ==> ok(xs[i])
  }

  lemma {:induction false} GetAllSound<T(!new)>(g: (seq<byte>, nat) -> Parsed<T>, e: T -> seq<byte>, ok: T -> bool,
                                                buf: seq<byte>, pos: nat, n: nat, acc: seq<T>)
    returns (ys: seq<T>)
    requires Lawful(g, e, ok) && pos <= |buf|
    requires GetAll(g, buf, pos, n, acc).Ok?
    ensures GetAll(g, buf, pos, n, acc) == Ok(acc + ys, pos + |PutAll(e, ys)|)
    ensures |ys| == n && AllOk(ok, ys) && At(buf, pos, PutAll(e, ys))
    decreases n
  {
    if n == 0 {
      ys := [];
      assert acc + ys == acc;
    } else {
      var x, p := g(buf, pos).value, g(buf, pos).pos;
      var rest := GetAllSound(g, e, ok, buf, p, n - 1, acc + [x]);
      ys := [x] + rest;
      assert acc + [x] + rest == acc + ys;
      PutAllCons(e, x, rest);
      AtCat(buf, pos, e(x), PutAll(e, rest));
    }
  }

  /** One of the n reads from pos on is odd. */
  ghost predicate AnyOdd<T>(g: (seq<byte>, nat) -> Parsed<T>, odd: (seq<byte>, nat) -> bool, buf: seq<byte>, pos: nat,
                            n: nat)
    decreases n
  {
    n > 0 && (odd(buf, pos) || (g(buf, pos).Ok? && AnyOdd(g, odd, buf, g(buf, pos).pos, n - 1)))
  }

  /** g reads encodings, except where it is odd: there it reads more bytes than the encoding has. */
  ghost predicate Lengthens<T(!new)>(g: (seq<byte>, nat) -> Parsed<T>, e: T -> seq<byte>,
                                     odd: (seq<byte>, nat) -> bool)
  {
    forall buf: seq<byte>, pos: nat {:trigger g(buf, pos)} :: g(buf, pos).Ok? ==>
      && pos <= g(buf, pos).pos <= |buf|
      && if odd(buf, pos) then g(buf, pos).pos > pos + |e(g(buf, pos).value)|
         else At(buf, pos, e(g(buf, pos).value)) && g(buf, pos).pos == pos + |e(g(buf, pos).value)|
  }

  lemma {:induction false} GetAllLengthens<T(!new)>(g: (seq<byte>, nat) -> Parsed<T>, e: T -> seq<byte>,
                                                    odd: (seq<byte>, nat) -> bool, buf: seq<byte>, pos: nat, n: nat,
                                                    acc: seq<T>)
    returns (ys: seq<T>)
    requires Lengthens(g, e, odd) && pos <= |buf| && GetAll(g, buf, pos, n, acc).Ok?
    ensures GetAll(g, buf, pos, n, acc).value == acc + ys && |ys| == n
    ensures pos <= GetAll(g, buf, pos, n, acc).pos <= |buf|
    ensures if AnyOdd(g, odd, buf, pos, n) then GetAll(g, buf, pos, n, acc).pos > pos + |PutAll(e, ys)|
            else At(buf, pos, PutAll(e, ys)) && GetAll(g, buf, pos, n, acc).pos == pos + |PutAll(e, ys)|
    decreases n
  {
    if n == 0 {
      ys := [];
      assert acc + ys == acc;
    } else {
      var Ok(x, p) := g(buf, pos);
      var rest := GetAllLengthens(g, e, odd, buf, p, n - 1, acc + [x]);
      ys := [x] + rest;
      assert acc + [x] + rest == acc + ys;
      PutAllCons(e, x, rest);
      AtCat(buf, pos, e(x), PutAll(e, rest));
    }
  }

  lemma {:induction false} GetAllComplete<T(!new)>(g: (seq<byte>, nat) -> Parsed<T>, e: T -> seq<byte>, ok: T -> bool,
                                                   buf: seq<byte>, pos: nat, xs: seq<T>, acc: seq<T>)
    requires Complete(g, e, ok)
    requires AllOk(ok, xs) && At(buf, pos, PutAll(e, xs))
    ensures GetAll(g, buf, pos, |xs|, acc) == Ok(acc + xs, pos + |PutAll(e, xs)|)
    decreases |xs|
  {
    if |xs| == 0 {
      assert acc + xs == acc;
    } else {
      var x, rest, p := xs[0], xs[1..], pos + |e(xs[0])|;
      AtCat(buf, pos, e(x), PutAll(e, rest));
      assert g(buf, pos) == Ok(x, p);
      GetAllComplete(g, e, ok, buf, p, rest, acc + [x]);
      assert acc + [x] + rest == acc + xs;
    }
  }

  lemma GetAllExact<T(!new)>(g: (seq<byte>, nat) -> Parsed<T>, e: T -> seq<byte>, ok: T -> bool,
                             buf: seq<byte>, pos: nat, n: nat, xs: seq<T>)
    requires Lawful(g, e, ok) && pos <= |buf|
    ensures Exactly(GetAll(g, buf, pos, n, []), xs, buf, pos, PutAll(e, xs), |xs| == n && AllOk(ok, xs))
  {
    var r := GetAll(g, buf, pos, n, []);
    if r.Ok? {
      var ys := GetAllSound(g, e, ok, buf, pos, n, []);
      assert [] + ys == ys;
    }
    if |xs| == n && AllOk(ok, xs) && At(buf, pos, PutAll(e, xs)) {
      GetAllComplete(g, e, ok, buf, pos, xs, []);
      assert [] + xs == xs;
    }
  }

  // ---------------------------------------------------------------- compact-u16 counted vectors

  function PutVec<T>(e: T -> seq<byte>, xs: seq<T>): (r: seq<byte>) {
    Shortvec(|xs|) + PutAll(e, xs)
  }

  function GetVec<T>(g: (seq<byte>, nat) -> Parsed<T>, buf: seq<byte>, pos: nat): (r: Parsed<seq<T>>) {
    var (n, p) :- GetShortvec(buf, pos);
    GetAll(g, buf, p, n, [])
  }

  ghost predicate VecOk<T>(ok: T -> bool, xs: seq<T>) {
    |xs| <= 0xFFFF && AllOk(ok, xs)
  }

  lemma GetVecExact<T(!new)>(g: (seq<byte>, nat) -> Parsed<T>, e: T -> seq<byte>, ok: T -> bool,
                             buf: seq<byte>, pos: nat, xs: seq<T>)
    requires Lawful(g, e, ok)
    ensures Exactly(GetVec(g, buf, pos), xs, buf, pos, PutVec(e, xs), VecOk(ok, xs))
  {
    AtCat(buf, pos, Shortvec(|xs|), PutAll(e, xs));
    var c := GetShortvec(buf, pos);
    if c.Ok? {
      GetShortvecExact(buf, pos, c.value);
      GetAllExact(g, e, ok, buf, c.pos, c.value, xs);
    }
    if |xs| <= 0xFFFF {
      GetShortvecExact(buf, pos, |xs|);
    }
  }

  // ---------------------------------------------------------------- compact-u16 counted byte strings

  function PutByteVec(b: seq<byte>): (r: seq<byte>) {
    Shortvec(|b|) + b
  }

  function GetByteVec(buf: seq<byte>, pos: nat): (r: Parsed<seq<byte>>) {
    var (n, p) :- GetShortvec(buf, pos);
    GetBytes(buf, p, n)
  }

  lemma GetByteVecExact(buf: seq<byte>, pos: nat, b: seq<byte>)
    ensures Exactly(GetByteVec(buf, pos), b, buf, pos, PutByteVec(b), |b| <= 0xFFFF)
  {
    AtCat(buf, pos, Shortvec(|b|), b);
    var c := GetShortvec(buf, pos);
    if c.Ok? {
      GetShortvecExact(buf, pos, c.value);
    }
    if |b| <= 0xFFFF {
      GetShortvecExact(buf, pos, |b|);
    }
  }
}

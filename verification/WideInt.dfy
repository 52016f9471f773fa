/**
 128- and 256-bit integers (encoding/u128.go, large_int.go): little-endian byte arrays and 64-bit
 words against the integers they denote, in both readings, unsigned and two's complement.
 */
module WideInt {
  import opened Wire
  import opened Bincode

  type i64 = x: int | -0x8000_0000_0000_0000 <= x < 0x8000_0000_0000_0000

  const TWO_64: nat := 0x1_0000_0000_0000_0000

  // ---------------------------------------------------------------- big-endian bytes

  /** The number whose big-endian bytes are b, as big.Int.SetBytes reads it. */
  function BEValue(b: seq<byte>): (r: nat) {
    if |b| == 0 then 0 else 256 * BEValue(b[..|b| - 1]) + b[|b| - 1]
  }

  /** The shortest big-endian bytes of x, as big.Int.Bytes returns them. */
  function BEBytes(x: nat): (b: seq<byte>)
    ensures |b| > 0 ==> b[0] != 0
  {
    if x == 0 then [] else BEBytes(x / 256) + [x % 256]
  }

  function Reversed(b: seq<byte>): (r: seq<byte>)
    ensures |r| == |b| && forall k :: 0 <= k < |b| ==> r[k] == b[|b| - 1 - k]
  {
    seq<byte>(|b|, k requires 0 <= k < |b| => b[|b| - 1 - k])
  }

  lemma {:induction false} BEBytesDenote(x: nat)
    ensures BEValue(BEBytes(x)) == x
  {
    if x > 0 {
      BEBytesDenote(x / 256);
      assert BEBytes(x)[..|BEBytes(x)| - 1] == BEBytes(x / 256);
    }
  }

  lemma {:induction false} BEBytesLength(x: nat, k: nat)
    ensures |BEBytes(x)| <= k <==> x < Pow256(k)
  {
    if x > 0 && k > 0 {
      BEBytesLength(x / 256, k - 1);
    }
  }

  lemma {:induction false} ReversedDenotes(b: seq<byte>)
    ensures BEValue(Reversed(b)) == LEValue(b)
  {
    if |b| > 0 {
      var r := Reversed(b);
      assert r[..|r| - 1] == Reversed(b[1..]);
      ReversedDenotes(b[1..]);
    }
  }

  lemma {:induction false} BEValueCat(a: seq<byte>, b: seq<byte>)
    ensures BEValue(a + b) == BEValue(a) * Pow256(|b|) + BEValue(b)
  {
    if |b| == 0 {
      assert a + b == a;
    } else {
      var n := |b| - 1;
      assert (a + b)[..|a + b| - 1] == a + b[..n];
      BEValueCat(a, b[..n]);
      assert BEValue(a) * Pow256(n) * 256 == BEValue(a) * Pow256(n + 1);
    }
  }

  lemma {:induction false} LEValueCat(a: seq<byte>, b: seq<byte>)
    ensures LEValue(a + b) == LEValue(a) + Pow256(|a|) * LEValue(b)
  {
    if |a| == 0 {
      assert a + b == b;
    } else {
      assert (a + b)[1..] == a[1..] + b;
      LEValueCat(a[1..], b);
      Associates(256, Pow256(|a| - 1), LEValue(b));
    }
  }

  lemma Associates(x: nat, y: nat, z: nat)
    ensures x * (y * z) == (x * y) * z
  {
  }

  lemma {:induction false} LeadingZeros(n: nat, b: seq<byte>)
    ensures BEValue(seq<byte>(n, _ => 0) + b) == BEValue(b)
  {
    var z := seq<byte>(n, _ => 0);
    BEValueCat(z, b);
    ZerosDenoteZero(n);
    assert BEValue(z) * Pow256(|b|) == 0;
  }

  lemma {:induction false} ZerosDenoteZero(n: nat)
    ensures BEValue(seq<byte>(n, _ => 0)) == 0
  {
    if n > 0 {
      ZerosDenoteZero(n - 1);
      assert seq<byte>(n, _ => 0)[..n - 1] == seq<byte>(n - 1, _ => 0);
    }
  }

  lemma {:induction false} PowersMatch(k: nat)
    ensures Pow2(8 * k) == Pow256(k)
  {
    if k > 0 {
      PowersMatch(k - 1);
      var n := 8 * (k - 1);
      assert Pow2(n + 1) == 2 * Pow2(n);
      assert Pow2(n + 2) == 2 * Pow2(n + 1);
      assert Pow2(n + 3) == 2 * Pow2(n + 2);
      assert Pow2(n + 4) == 2 * Pow2(n + 3);
      assert Pow2(n + 5) == 2 * Pow2(n + 4);
      assert Pow2(n + 6) == 2 * Pow2(n + 5);
      assert Pow2(n + 7) == 2 * Pow2(n + 6);
      assert Pow2(n + 8) == 2 * Pow2(n + 7);
    }
  }

  function Pow2(n: nat): (p: nat)
    ensures p > 0
  {
    if n == 0 then 1 else 2 * Pow2(n - 1)
  }

  /** The number of bits of x, as big.Int.BitLen counts them. */
  function BitLen(x: nat): (r: nat) {
    if x == 0 then 0 else 1 + BitLen(x / 2)
  }

  lemma {:induction false} BitLenBound(x: nat, n: nat)
    ensures BitLen(x) <= n <==> x < Pow2(n)
  {
    if x > 0 && n > 0 {
      BitLenBound(x / 2, n - 1);
    }
  }

  // ---------------------------------------------------------------- byte arrays

  /** reverse16, and the same loop over 32 bytes. */
  method Reverse(b: array<byte>)
    modifies b
    ensures b[..] == Reversed(old(b[..]))
  {
    var i, j := 0, b.Length - 1;
    while i < j
      invariant i + j == b.Length - 1 && 0 <= i
      invariant i <= j + 1
      invariant forall k :: 0 <= k < i || j < k < b.Length ==> b[k] == old(b[b.Length - 1 - k])
      invariant forall k :: i <= k <= j ==> b[k] == old(b[k])
    {
      b[i], b[j] := b[j], b[i];
      i, j := i + 1, j - 1;
    }
  }

  method PutUint64(b: array<byte>, off: nat, v: u64)
    requires off + 8 <= b.Length
    modifies b
    ensures b[..] == old(b[..off]) + LE(v, 8) + old(b[off + 8..])
  {
    hide LE, LEValue;
    LEOfEight(v);
    var bytes := LowBytes(v) + LowBytes(v / 0x1_0000_0000);
    for i := 0 to 8
      invariant forall k :: 0 <= k < b.Length ==>
                  b[k] == if off <= k < off + i then bytes[k - off] else old(b[k])
    {
      b[off + i] := bytes[i];
    }
  }

  /** The 64-bit word at byte offset off, as Lo, Hi and Word read it. */
  method GetUint64(b: array<byte>, off: nat) returns (v: u64)
    requires off + 8 <= b.Length
    ensures v == LEValue(b[off..off + 8])
  {
    hide LEValue;
    ghost var w := b[off..off + 8];
    LEValueOfEight(w);
    LEValueOfFour(w[..4]);
    LEValueOfFour(w[4..]);
    var b0: int, b1: int, b2: int, b3: int := b[off], b[off + 1], b[off + 2], b[off + 3];
    var b4: int, b5: int, b6: int, b7: int := b[off + 4], b[off + 5], b[off + 6], b[off + 7];
    v := b0 + 0x100 * b1 + 0x1_0000 * b2 + 0x100_0000 * b3
         + 0x1_0000_0000 * (b4 + 0x100 * b5 + 0x1_0000 * b6 + 0x100_0000 * b7);
  }

  /** Two words denote lo + 2^64 hi. */
  lemma WordsDenote(lo: nat, hi: nat)
    requires lo < TWO_64 && hi < TWO_64
    ensures LEValue(LE(lo, 8) + LE(hi, 8)) == lo + TWO_64 * hi
    ensures |LE(lo, 8) + LE(hi, 8)| == 16
  {
    Pow256Widths();
    LERoundTrip(lo, 8);
    LERoundTrip(hi, 8);
    LEValueCat(LE(lo, 8), LE(hi, 8));
  }

  lemma WordsOf(b: seq<byte>)
    requires |b| == 16
    ensures LEValue(b) == LEValue(b[..8]) + TWO_64 * LEValue(b[8..]) && LEValue(b[..8]) < TWO_64
            && LEValue(b[8..]) < TWO_64
  {
    Pow256Widths();
    assert b == b[..8] + b[8..];
    LEValueCat(b[..8], b[8..]);
  }

  method SetLoHi(u: array<byte>, lo: u64, hi: u64)
    requires u.Length == 16
    modifies u
    ensures u[..] == LE(lo, 8) + LE(hi, 8) && LEValue(u[..]) == lo + TWO_64 * hi
  {
    hide LE, LEValue;
    PutUint64(u, 0, lo);
    PutUint64(u, 8, hi);
    WordsDenote(lo, hi);
    assert u[..] == LE(lo, 8) + LE(hi, 8);
  }

  method SetUint64(u: array<byte>, v: u64)
    requires u.Length == 16
    modifies u
    ensures u[..] == LE(v, 8) + LE(0, 8) && LEValue(u[..]) == v
  {
    SetLoHi(u, v, 0);
  }

  method LoHi(u: array<byte>) returns (lo: u64, hi: u64)
    requires u.Length == 16
    ensures LEValue(u[..]) == lo + TWO_64 * hi
  {
    hide LEValue;
    lo := GetUint64(u, 0);
    hi := GetUint64(u, 8);
    WordsOf(u[..]);
    assert u[..][..8] == u[0..8] && u[..][8..] == u[8..16];
  }

  function WordAt(b: seq<byte>, i: nat): (r: nat)
    requires i < 4 && |b| == 32
  {
    LEValue(b[8 * i..8 * i + 8])
  }

  method Word(u: array<byte>, i: nat) returns (v: u64)
    requires u.Length == 32 && i < 4
    ensures v == WordAt(u[..], i)
  {
    v := GetUint64(u, 8 * i);
    assert u[..][8 * i..8 * i + 8] == u[8 * i..8 * i + 8];
  }

  /** Sets word i and leaves the other three as they are. */
  method SetWord(u: array<byte>, i: nat, v: u64)
    requires u.Length == 32 && i < 4
    modifies u
    ensures forall j :: 0 <= j < 4 ==> WordAt(u[..], j) == if j == i then v else WordAt(old(u[..]), j)
  {
    PutUint64(u, 8 * i, v);
    Pow256Widths();
    LERoundTrip(v, 8);
    forall j | 0 <= j < 4 ensures WordAt(u[..], j) == if j == i then v else WordAt(old(u[..]), j) {
      assert u[..][8 * j..8 * j + 8] == if j == i then LE(v, 8) else old(u[..])[8 * j..8 * j + 8];
    }
  }

  /** The four words denote the whole: word i counts 2^(64 i). */
  lemma FourWords(b: seq<byte>)
    requires |b| == 32
    ensures LEValue(b) == WordAt(b, 0) + TWO_64 * (WordAt(b, 1) + TWO_64 * (WordAt(b, 2) + TWO_64 * WordAt(b, 3)))
  {
    hide LEValue, Pow256;
    Pow256Widths();
    assert b == b[0..8] + (b[8..16] + (b[16..24] + b[24..32]));
    LEValueCat(b[0..8], b[8..16] + (b[16..24] + b[24..32]));
    LEValueCat(b[8..16], b[16..24] + b[24..32]);
    LEValueCat(b[16..24], b[24..32]);
  }

  /** BigInt: copies the bytes in reverse and reads them as big-endian. */
  method BigInt(u: array<byte>) returns (x: nat)
    ensures x == LEValue(u[..]) < Pow256(u.Length)
  {
    var be := new byte[u.Length];
    for i := 0 to u.Length
      invariant forall k :: 0 <= k < i ==> be[k] == u[u.Length - 1 - k]
    {
      be[i] := u[u.Length - 1 - i];
    }
    assert be[..] == Reversed(u[..]);
    ReversedDenotes(u[..]);
    x := BEValue(be[..]);
  }

  /** SetBigInt accepts exactly the values in range, and leaves u alone otherwise. */
  method SetBigInt(u: array<byte>, x: int) returns (ok: bool)
    modifies u
    ensures ok <==> 0 <= x < Pow256(u.Length)
    ensures ok ==> LEValue(u[..]) == x
    ensures !ok ==> u[..] == old(u[..])
  {
    if x < 0 {
      return false;
    }
    BitLenBound(x, 8 * u.Length);
    PowersMatch(u.Length);
    if BitLen(x) > 8 * u.Length {
      return false;
    }
    var le := FromBigEndian(x, u.Length);
    CopyInto(u, le);
    return true;
  }

  /** The n little-endian bytes of x, from its shortest big-endian bytes. */
  method FromBigEndian(x: nat, n: nat) returns (le: array<byte>)
    requires x < Pow256(n)
    ensures fresh(le) && le.Length == n && LEValue(le[..]) == x
  {
    hide BEBytes, BEValue, LEValue, Pow256;
    var be := BEBytes(x);
    BEBytesLength(x, n);
    le := new byte[n](_ => 0);
    for i := 0 to |be|
      invariant forall k :: 0 <= k < le.Length ==>
                  le[k] == if |be| - i <= k < |be| then be[|be| - 1 - k] else 0
    {
      le[|be| - 1 - i] := be[i];
    }
    ReversedDenotes(le[..]);
    assert Reversed(le[..]) == seq<byte>(n - |be|, _ => 0) + be;
    LeadingZeros(n - |be|, be);
    BEBytesDenote(x);
  }

  method CopyInto(u: array<byte>, le: array<byte>)
    requires u.Length == le.Length && u != le
    modifies u
    ensures u[..] == le[..] == old(le[..])
  {
    for i := 0 to u.Length
      invariant forall k :: 0 <= k < i ==> u[k] == le[k]
      invariant le[..] == old(le[..])
    {
      u[i] := le[i];
    }
  }

  /** The value determines the bytes, so SetBigInt after BigInt restores them. */
  lemma BytesDetermined(a: seq<byte>, b: seq<byte>)
    requires |a| == |b| && LEValue(a) == LEValue(b)
    ensures a == b
  {
    LEValueRoundTrip(a);
    LEValueRoundTrip(b);
  }

  method SetBigIntInvertsBigInt(u: array<byte>, v: array<byte>) returns (ok: bool)
    requires u.Length == v.Length && u != v
    modifies v
    ensures ok && v[..] == u[..]
  {
    var x := BigInt(u);
    ok := SetBigInt(v, x);
    BytesDetermined(v[..], u[..]);
  }

  // ---------------------------------------------------------------- Uint128, Int128, Uint256, Int256

  datatype Uint128 = Uint128(lo: u64, hi: u64) {
    function Denotes(): (r: nat) {
      lo + TWO_64 * hi
    }

    /** The sixteen little-endian bytes of the value. */
    function Bytes(): (b: seq<byte>)
      ensures |b| == 16 && LEValue(b) == Denotes()
    {
      WordsDenote(lo, hi);
      LE(lo, 8) + LE(hi, 8)
    }
  }

  /** hi is signed; its bit pattern is what is stored. */
  datatype Int128 = Int128(lo: u64, hi: i64) {
    function Denotes(): (r: int) {
      lo + TWO_64 * hi
    }

    function Pattern(): (r: Uint128) {
      Uint128(lo, Unsigned64(hi))
    }
  }

  datatype Uint256 = Uint256(lo: Uint128, hi: Uint128) {
    function Denotes(): (r: nat) {
      lo.Denotes() + TWO_64 * TWO_64 * hi.Denotes()
    }
  }

  datatype Int256 = Int256(lo: Uint128, hi: Int128) {
    function Denotes(): (r: int) {
      lo.Denotes() + TWO_64 * TWO_64 * hi.Denotes()
    }
  }

  /** The conversions between int64 and uint64 keep the bits. */
  function Unsigned64(x: i64): (r: u64) {
    if x < 0 then x + 0x1_0000_0000_0000_0000 else x
  }

  function Signed64(x: u64): (r: i64) {
    if x >= 0x8000_0000_0000_0000 then x - 0x1_0000_0000_0000_0000 else x
  }

  lemma Signed64Inverts(x: i64, y: u64)
    ensures Signed64(Unsigned64(x)) == x && Unsigned64(Signed64(y)) == y
  {
  }

  lemma Pow256Large()
    ensures Pow256(16) == TWO_64 * TWO_64
    ensures Pow256(32) == TWO_64 * TWO_64 * TWO_64 * TWO_64
  {
    Pow256Widths();
    PowersAdd(8, 8);
    PowersAdd(16, 16);
    assert Pow256(32) == (TWO_64 * TWO_64) * (TWO_64 * TWO_64);
  }

  lemma {:induction false} PowersAdd(a: nat, b: nat)
    ensures Pow256(a + b) == Pow256(a) * Pow256(b)
  {
    if b > 0 {
      PowersAdd(a, b - 1);
      assert Pow256(a + b) == 256 * Pow256(a + b - 1);
      assert Pow256(a) * Pow256(b) == 256 * (Pow256(a) * Pow256(b - 1));
    }
  }

  method Uint128BigInt(u: Uint128) returns (x: nat)
    ensures x == u.Denotes()
  {
    var b := new byte[16];
    SetLoHi(b, u.lo, u.hi);
    ghost var le := b[..];
    Reverse(b);
    ReversedDenotes(le);
    x := BEValue(b[..]);
  }

  /** Two's complement: the pattern's value, less 2^128 when the sign bit is set. */
  method Int128BigInt(i: Int128) returns (x: int)
    ensures x == i.Denotes()
  {
    x := Uint128BigInt(i.Pattern());
    if i.hi < 0 {
      x := x - TWO_64 * TWO_64;
    }
  }

  method Uint256BigInt(u: Uint256) returns (x: nat)
    ensures x == u.Denotes()
  {
    var b := Bytes256(u.lo, u.hi);
    ghost var le := b[..];
    Reverse(b);
    ReversedDenotes(le);
    x := BEValue(b[..]);
  }

  method Bytes256(lo: Uint128, hi: Uint128) returns (b: array<byte>)
    ensures fresh(b) && b.Length == 32 && b[..] == lo.Bytes() + hi.Bytes()
    ensures LEValue(b[..]) == lo.Denotes() + TWO_64 * TWO_64 * hi.Denotes()
  {
    hide LE, LEValue, Pow256;
    b := new byte[32];
    PutUint64(b, 0, lo.lo);
    PutUint64(b, 8, lo.hi);
    PutUint64(b, 16, hi.lo);
    PutUint64(b, 24, hi.hi);
    assert b[..] == lo.Bytes() + hi.Bytes();
    LEValueCat(lo.Bytes(), hi.Bytes());
    Pow256Large();
  }

  /** The value that Int256.String prints. */
  method Int256Value(i: Int256) returns (x: int)
    ensures x == i.Denotes()
  {
    var b := Bytes256(i.lo, i.hi.Pattern());
    ghost var le := b[..];
    Reverse(b);
    ReversedDenotes(le);
    x := BEValue(b[..]);
    if i.hi.hi < 0 {
      x := x - TWO_64 * TWO_64 * TWO_64 * TWO_64;
    }
  }

  lemma RemainderIs(q: nat, m: nat, r: nat)
    requires r < m
    ensures (q * m + r) % m == r
  {
    var x := q * m + r;
    var q', r' := x / m, x % m;
    assert x == q' * m + r' && (q + 1) * m == q * m + m && (q' + 1) * m == q' * m + m;
    if q' > q {
      TimesUp(q + 1, q', m);
    } else if q' < q {
      TimesUp(q' + 1, q, m);
    }
  }

  lemma TimesUp(a: nat, b: nat, m: nat)
    requires a <= b
    ensures a * m <= b * m
  {
  }

  /** Bytes of the magnitude, low sixteen: the sign is ignored and high bits are lost. */
  method Uint128FromBigInt(x: int) returns (u: Uint128)
    ensures u.Denotes() == (if x < 0 then -x else x) % Pow256(16)
  {
    hide BEBytes, BEValue, LEValue, Pow256;
    var magnitude: nat := if x < 0 then -x else x;
    var b := LowBytesOf(magnitude);
    var le := new byte[16](_ => 0);
    for i := 0 to |b|
      invariant forall k :: 0 <= k < 16 ==> le[k] == if 16 - |b| <= k < 16 - |b| + i then b[k - (16 - |b|)] else 0
    {
      le[16 - |b| + i] := b[i];
    }
    assert le[..] == seq<byte>(16 - |b|, _ => 0) + b;
    LeadingZeros(16 - |b|, b);
    ghost var be := le[..];
    Reverse(le);
    assert Reversed(le[..]) == be;
    ReversedDenotes(le[..]);
    var lo, hi := LoHi(le);
    u := Uint128(lo, hi);
  }

  /** The big-endian bytes of x, cut to the last sixteen. */
  method LowBytesOf(x: nat) returns (b: seq<byte>)
    ensures |b| <= 16 && BEValue(b) == x % Pow256(16)
  {
    hide BEBytes, BEValue, Pow256;
    b := BEBytes(x);
    BEBytesDenote(x);
    BEBytesLength(x, 16);
    if |b| > 16 {
      ghost var high := b[..|b| - 16];
      assert b == high + b[|b| - 16..];
      BEValueCat(high, b[|b| - 16..]);
      b := b[|b| - 16..];
      LowBytesBound(b);
      RemainderIs(BEValue(high), Pow256(16), BEValue(b));
    } else {
      RemainderIs(0, Pow256(16), x);
    }
  }

  lemma LowBytesBound(b: seq<byte>)
    ensures BEValue(b) < Pow256(|b|)
  {
    assert Reversed(Reversed(b)) == b;
    ReversedDenotes(Reversed(b));
  }

  // ---------------------------------------------------------------- wire

  /** MarshalToEncoder: the sixteen bytes of the value. */
  method WriteUint128(e: Encoder, u: Uint128)
    modifies e
    ensures e.buf == old(e.buf) + u.Bytes()
  {
    var raw := new byte[16];
    SetLoHi(raw, u.lo, u.hi);
    e.WriteBytes(raw[..]);
  }

  /** UnmarshalFromDecoder: the number in the next sixteen bytes. */
  method ReadUint128(d: Decoder) returns (r: Result<Uint128>)
    requires d.Valid()
    modifies d`pos
    ensures d.Valid()
    ensures r.Success? <==> old(d.pos) + 16 <= |d.buf|
    ensures r.Success? ==> d.pos == old(d.pos) + 16 && r.value.Bytes() == d.buf[old(d.pos)..d.pos]
    ensures r.Failure? ==> r.error == ShortBuffer && d.pos == old(d.pos)
  {
    var raw :- d.ReadBytes(16);
    var b := new byte[16](i requires 0 <= i < 16 => raw[i]);
    assert b[..] == raw;
    var lo, hi := LoHi(b);
    r := Success(Uint128(lo, hi));
    BytesDetermined(r.value.Bytes(), raw);
  }

  method WriteInt128(e: Encoder, i: Int128)
    modifies e
    ensures e.buf == old(e.buf) + i.Pattern().Bytes()
  {
    WriteUint128(e, i.Pattern());
  }

  /** Reading back what WriteInt128 wrote gives the same number: the sign survives. */
  method ReadInt128(d: Decoder) returns (r: Result<Int128>)
    requires d.Valid()
    modifies d`pos
    ensures d.Valid()
    ensures r.Success? <==> old(d.pos) + 16 <= |d.buf|
    ensures r.Success? ==> d.pos == old(d.pos) + 16 && r.value.Pattern().Bytes() == d.buf[old(d.pos)..d.pos]
    ensures r.Failure? ==> r.error == ShortBuffer && d.pos == old(d.pos)
  {
    var u :- ReadUint128(d);
    Signed64Inverts(0, u.hi);
    r := Success(Int128(u.lo, Signed64(u.hi)));
    assert r.value.Pattern() == u;
  }

  /** The stored pattern determines the signed value. */
  lemma PatternDetermines(a: Int128, b: Int128)
    requires a.Pattern().Bytes() == b.Pattern().Bytes()
    ensures a == b
  {
    hide LE, LEValue;
    assert a.Pattern().Denotes() == b.Pattern().Denotes();
    Signed64Inverts(a.hi, 0);
    Signed64Inverts(b.hi, 0);
  }
}

/**
 The append-only Encoder and the cursor Decoder of encoding/bincode.go. Every method is proved
 against the function of module Wire that says what it writes or reads.
 */
module Bincode {
  import opened Wire

  /**
   Writes the compact-u16 encoding of v to the front of b and returns its length; the rest of b is
   left as it was.
   */
  method EncodeShortvec(b: array<byte>, v: u16) returns (n: nat)
    requires b.Length >= 3
    modifies b
    ensures n == |Shortvec(v)| <= 3
    ensures b[..n] == Shortvec(v)
    ensures b[n..] == old(b[n..])
  {
    var w: int := v;
    if w < 0x80 {
      b[0] := w;
      return 1;
    }
    if w < 0x4000 {
      b[0] := w % 128 + 128;
      b[1] := w / 128;
      return 2;
    }
    b[0] := w % 128 + 128;
    b[1] := w / 128 % 128 + 128;
    b[2] := w / 16384;
    return 3;
  }

  lemma LEOfTwo(v: nat)
    ensures LE(v, 2) == [v % 256, v / 256 % 256]
  {
    assert LE(v / 256, 1) == [v / 256 % 256] + LE(v / 256 / 256, 0);
  }

  lemma LEOfFour(v: nat)
    ensures LE(v, 4) == [v % 256, v / 0x100 % 256, v / 0x1_0000 % 256, v / 0x100_0000 % 256]
  {
    assert LE(v, 4) == [v % 256] + LE(v / 0x100, 3);
    assert LE(v / 0x100, 3) == [v / 0x100 % 256] + LE(v / 0x100 / 256, 2);
    LEOfTwo(v / 0x1_0000);
  }

  /** The four low bytes of v, least significant first. */
  function LowBytes(v: nat): (b: seq<byte>)
    ensures b == LE(v, 4)
  {
    LEOfFour(v);
    [v % 256, v / 0x100 % 256, v / 0x1_0000 % 256, v / 0x100_0000 % 256]
  }

  /** v shifted right by k bytes. */
  function Shift(v: nat, k: nat): (r: nat) {
    if k == 0 then v else Shift(v / 256, k - 1)
  }

  lemma {:induction false} LEAppend(v: nat, j: nat, k: nat)
    ensures LE(v, j + k) == LE(v, j) + LE(Shift(v, j), k)
  {
    if j > 0 {
      LEAppend(v / 256, j - 1, k);
      assert LE(v, j + k) == [v % 256] + LE(v / 256, j - 1 + k);
    }
  }

  lemma LEOfEight(v: nat)
    ensures LE(v, 8) == LE(v, 4) + LE(v / 0x1_0000_0000, 4)
  {
    LEAppend(v, 4, 4);
    ShiftFour(v);
  }

  lemma ShiftFour(v: nat)
    ensures Shift(v, 4) == v / 0x1_0000_0000
  {
    var a := v / 256;
    var b := a / 256;
    var c := b / 256;
    assert Shift(v, 4) == Shift(a, 3);
    assert Shift(a, 3) == Shift(b, 2);
    assert Shift(b, 2) == Shift(c, 1);
    assert Shift(c, 1) == Shift(c / 256, 0);
  }

  lemma LEValueOfTwo(b: seq<byte>)
    requires |b| == 2
    ensures LEValue(b) == b[0] as int + 0x100 * (b[1] as int)
  {
    assert LEValue(b[1..]) == b[1] + 256 * LEValue(b[1..][1..]);
  }

  lemma LEValueOfFour(b: seq<byte>)
    requires |b| == 4
    ensures LEValue(b) ==
            b[0] as int + 0x100 * (b[1] as int) + 0x1_0000 * (b[2] as int) + 0x100_0000 * (b[3] as int)
  {
    LEValueOfTwo(b[2..]);
    assert b[1..][1..] == b[2..];
    assert LEValue(b[1..]) == b[1] + 256 * LEValue(b[2..]);
  }

  lemma LEValueOfEight(b: seq<byte>)
    requires |b| == 8
    ensures LEValue(b) == LEValue(b[..4]) + 0x1_0000_0000 * LEValue(b[4..])
  {
    LEValueOfFour(b[..4]);
    assert b[1..][1..] == b[2..];
    assert b[2..][1..] == b[3..];
    assert b[3..][1..] == b[4..];
    assert LEValue(b) == b[0] + 256 * LEValue(b[1..]);
    assert LEValue(b[1..]) == b[1] + 256 * LEValue(b[2..]);
    assert LEValue(b[2..]) == b[2] + 256 * LEValue(b[3..]);
    assert LEValue(b[3..]) == b[3] + 256 * LEValue(b[4..]);
  }

  class Encoder {
    var buf: seq<byte>

    constructor ()
      ensures buf == []
    {
      buf := [];
    }

    method WriteUint8(v: byte)
      modifies this
      ensures buf == old(buf) + [v]
    {
      buf := buf + [v];
    }

    method WriteUint16(v: u16)
      modifies this
      ensures buf == old(buf) + LE(v, 2)
    {
      var w: int := v;
      LEOfTwo(v);
      buf := buf + [w % 256, w / 256];
    }

    method WriteUint32(v: u32)
      modifies this
      ensures buf == old(buf) + LE(v, 4)
    {
      var w: int := v;
      LEOfFour(v);
      buf := buf + [w % 256, w / 0x100 % 256, w / 0x1_0000 % 256, w / 0x100_0000];
    }

    method WriteUint64(v: u64)
      modifies this
      ensures buf == old(buf) + LE(v, 8)
    {
      LEOfEight(v);
      var lo, hi := LowBytes(v), LowBytes(v / 0x1_0000_0000);
      buf := buf + (lo + hi);
    }

    method WriteBytes(b: seq<byte>)
      modifies this
      ensures buf == old(buf) + b
    {
      buf := buf + b;
    }

    method WriteShortvec(v: u16)
      modifies this
      ensures buf == old(buf) + Shortvec(v)
    {
      var tmp := new byte[3];
      var n := EncodeShortvec(tmp, v);
      buf := buf + tmp[..n];
    }
  }

  class Decoder {
    const buf: seq<byte>
    var pos: nat
    // Selects the Borsh u32 length prefix instead of bincode's u64.
    var borsh: bool

    constructor (b: seq<byte>)
      ensures buf == b && pos == 0 && !borsh && Valid()
    {
      buf := b;
      pos := 0;
      borsh := false;
    }

    ghost predicate Valid()
      reads this
    {
      pos <= |buf|
    }

    /** The call that returned r did what the decoding function g says, cursor included. */
    ghost predicate Yields<T>(g: Parsed<T>, r: Result<T>)
      reads this
    {
      match g
      case Ok(v, p) => r == Success(v) && pos == p
      case Err(e) => r == Failure(e)
    }

    function Remaining(): (n: nat)
      requires Valid()
      reads this
      ensures pos + n == |buf|
    {
      |buf| - pos
    }

    method PeekUint8() returns (r: Result<byte>)
      requires Valid()
      ensures r == if Remaining() < 1 then Failure(ShortBuffer) else Success(buf[pos])
    {
      if Remaining() < 1 {
        return Failure(ShortBuffer);
      }
      return Success(buf[pos]);
    }

    method ReadUint8() returns (r: Result<byte>)
      requires Valid()
      modifies this`pos
      ensures Valid() && Yields(GetU8(buf, old(pos)), r)
      ensures r.Failure? ==> pos == old(pos)
    {
      if Remaining() < 1 {
        return Failure(ShortBuffer);
      }
      var v := buf[pos];
      pos := pos + 1;
      return Success(v);
    }

    method ReadUint16() returns (r: Result<u16>)
      requires Valid()
      modifies this`pos
      ensures Valid() && Yields(GetU16(buf, old(pos)), r)
      ensures r.Failure? ==> pos == old(pos)
    {
      if Remaining() < 2 {
        return Failure(ShortBuffer);
      }
      var b0: int, b1: int := buf[pos], buf[pos + 1];
      LEValueOfTwo(buf[pos..pos + 2]);
      pos := pos + 2;
      return Success(b0 + 0x100 * b1);
    }

    method ReadUint32() returns (r: Result<u32>)
      requires Valid()
      modifies this`pos
      ensures Valid() && Yields(GetU32(buf, old(pos)), r)
      ensures r.Failure? ==> pos == old(pos)
    {
      if Remaining() < 4 {
        return Failure(ShortBuffer);
      }
      var b0: int, b1: int, b2: int, b3: int := buf[pos], buf[pos + 1], buf[pos + 2], buf[pos + 3];
      LEValueOfFour(buf[pos..pos + 4]);
      pos := pos + 4;
      return Success(b0 + 0x100 * b1 + 0x1_0000 * b2 + 0x100_0000 * b3);
    }

    method ReadUint64() returns (r: Result<u64>)
      requires Valid()
      modifies this`pos
      ensures Valid() && Yields(GetU64(buf, old(pos)), r)
      ensures r.Failure? ==> pos == old(pos)
    {
      if Remaining() < 8 {
        return Failure(ShortBuffer);
      }
      var b0: int, b1: int, b2: int, b3: int := buf[pos], buf[pos + 1], buf[pos + 2], buf[pos + 3];
      var b4: int, b5: int, b6: int, b7: int := buf[pos + 4], buf[pos + 5], buf[pos + 6], buf[pos + 7];
      ghost var w := buf[pos..pos + 8];
      LEValueOfEight(w);
      LEValueOfFour(w[..4]);
      LEValueOfFour(w[4..]);
      pos := pos + 8;
      return Success(b0 + 0x100 * b1 + 0x1_0000 * b2 + 0x100_0000 * b3
                     + 0x1_0000_0000 * (b4 + 0x100 * b5 + 0x1_0000 * b6 + 0x100_0000 * b7));
    }

    method ReadBytes(n: int) returns (r: Result<seq<byte>>)
      requires Valid()
      modifies this`pos
      ensures Valid()
      ensures n < 0 ==> r == Failure(ShortBuffer) && pos == old(pos)
      ensures n >= 0 ==> Yields(GetBytes(buf, old(pos), n), r)
      ensures r.Failure? ==> pos == old(pos)
    {
      if n < 0 {
        return Failure(ShortBuffer);
      }
      if Remaining() < n {
        return Failure(ShortBuffer);
      }
      var out := buf[pos..pos + n];
      pos := pos + n;
      return Success(out);
    }

    method ReadShortvec() returns (r: Result<u16>)
      requires Valid()
      modifies this`pos
      ensures Valid() && Yields(GetShortvec(buf, old(pos)), r)
      ensures r.Failure? ==> pos == old(pos)
    {
      match GetShortvec(buf, pos)
      case Err(e) =>
        return Failure(e);
      case Ok(v, p) =>
        pos := p;
        return Success(v);
    }

    method UseBorsh() returns (d: Decoder)
      modifies this`borsh
      ensures d == this && borsh
    {
      borsh := true;
      d := this;
    }
  }
}

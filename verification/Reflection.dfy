/**
 The direct recursive meaning of the reflective decoder: which value of a Go type stands at a
 cursor, and which bytes encode a value, in bincode and in Borsh mode.
 */
module Reflection {
  import opened Wire
  import opened GoTypes

  /**
   A type's own UnmarshalFromDecoder: from the type's id and size, the buffer, the cursor and the
   mode to the memory image it leaves and the cursor after it.
   */
  type Unmarshalers = (nat, nat, seq<byte>, nat, bool) -> Parsed<seq<Cell>>

  datatype Input = Input(buf: seq<byte>, borsh: bool, customs: Unmarshalers)

  function CallCustom(id: nat, size: nat, inp: Input, pos: nat): (r: Parsed<seq<Cell>>)
    ensures r.Ok? ==> |r.value| == size && pos <= r.pos <= |inp.buf|
  {
    match inp.customs(id, size, inp.buf, pos, inp.borsh)
    case Ok(image, p) => if |image| == size && pos <= p <= |inp.buf| then Ok(image, p) else Err(Error.Custom)
    case Err(e) => Err(e)
  }

  /** Length prefixes are u64 in bincode and u32 in Borsh. */
  function PrefixWidth(borsh: bool): (r: nat) {
    if borsh then 4 else 8
  }

  function GetLen(inp: Input, pos: nat): (r: Parsed<nat>)
    ensures r.Ok? ==> r.pos == pos + PrefixWidth(inp.borsh) <= |inp.buf|
  {
    GetLE(inp.buf, pos, PrefixWidth(inp.borsh))
  }

  /** A length prefix that may not exceed the bytes that are left after it. */
  function GetGuardedLen(inp: Input, pos: nat): (r: Parsed<nat>)
    ensures r.Ok? ==> r.pos == pos + PrefixWidth(inp.borsh) && r.pos + r.value <= |inp.buf|
  {
    var (n, p) :- GetLen(inp, pos);
    if n > |inp.buf| - p then Err(LengthExceedsInput) else Ok(n, p)
  }

  // ---------------------------------------------------------------- decoding

  /** Every decoded part of t has a kind with a wire layout. */
  predicate Supported(t: GoType)
    decreases t, 2, 0
  {
    match t
    case Array(_, e) => IsByteKind(e) || Supported(e)
    case Slice(e) => IsByteKind(e) || Supported(e)
    case Pointer(e) => Supported(e)
    case Struct(fields, _) => SupportedFields(t, |fields|)
    case Interface => false
    case Other(_) => false
    case _ => true
  }

  predicate SupportedFields(t: GoType, n: nat)
    requires t.Struct? && n <= |t.fields|
    decreases t, 1, n
  {
    n == 0 || (SupportedFields(t, n - 1) && (IsDecoded(t.fields[n - 1]) ==> Supported(t.fields[n - 1].typ)))
  }

  /** The kind of t is uint8: reflect reports no more than that. */
  predicate IsByteKind(t: GoType) {
    (t.Num? && t.width == 1 && !t.signed) || (t.Custom? && t.byteKind)
  }

  function Decode(t: GoType, inp: Input, pos: nat): (r: Parsed<Value>)
    requires pos <= |inp.buf|
    ensures r.Ok? ==> pos <= r.pos <= |inp.buf|
    decreases t, 2, 0
  {
    match t
    case Num(w, s, _) =>
      var (u, p) :- GetLE(inp.buf, pos, w);
      Ok(Int(Convert(u, w, s)), p)
    case Bool =>
      var (b, p) :- GetU8(inp.buf, pos);
      if b == 0 then Ok(Flag(false), p) else if b == 1 then Ok(Flag(true), p) else Err(InvalidBool)
    case Str =>
      var (n, p) :- GetGuardedLen(inp, pos);
      Ok(Text(inp.buf[p..p + n]), p + n)
    case Array(n, e) =>
      var (vs, p) :- DecodeElems(e, n, inp, pos);
      Ok(List(vs), p)
    case Slice(e) =>
      var (n, p) :- GetGuardedLen(inp, pos);
      var (vs, q) :- DecodeElems(e, n, inp, p);
      Ok(List(vs), q)
    case Pointer(e) =>
      var (tag, p) :- GetU8(inp.buf, pos);
      if tag == 0 then Ok(Nothing, p)
      else if tag == 1 then
        var (v, q) :- Decode(e, inp, p);
        Ok(Just(v), q)
      else Err(InvalidOptionTag)
    case Struct(fields, _) =>
      var (vs, p) :- DecodeFields(t, |fields|, inp, pos);
      Ok(List(vs), p)
    case Custom(id, _, _) =>
      var (image, p) :- CallCustom(id, Size(t), inp, pos);
      Ok(Image(image), p)
    case Interface => Err(UnsupportedType)
    case Other(_) => Err(UnsupportedType)
  }

  function DecodeElems(e: GoType, n: nat, inp: Input, pos: nat): (r: Parsed<seq<Value>>)
    requires pos <= |inp.buf|
    ensures r.Ok? ==> pos <= r.pos <= |inp.buf| && |r.value| == n
    decreases e, 3, n
  {
    if n == 0 then Ok([], pos)
    else
      var (vs, p) :- DecodeElems(e, n - 1, inp, pos);
      var (v, q) :- Decode(e, inp, p);
      Ok(vs + [v], q)
  }

  function DecodeFields(t: GoType, n: nat, inp: Input, pos: nat): (r: Parsed<seq<Value>>)
    requires t.Struct? && n <= |t.fields| && pos <= |inp.buf|
    ensures r.Ok? ==> pos <= r.pos <= |inp.buf| && |r.value| == n
    decreases t, 1, n
  {
    if n == 0 then Ok([], pos)
    else
      var (vs, p) :- DecodeFields(t, n - 1, inp, pos);
      if IsDecoded(t.fields[n - 1]) then
        var (v, q) :- Decode(t.fields[n - 1].typ, inp, p);
        Ok(vs + [v], q)
      else Ok(vs + [Absent], p)
  }

  // ---------------------------------------------------------------- encoding

  function Encode(t: GoType, v: Value, borsh: bool): (r: seq<byte>)
    decreases t, 2, 0
  {
    match (t, v)
    case (Num(w, _, _), Int(i)) => LE(Pattern(i, w), w)
    case (Bool, Flag(f)) => if f then [1] else [0]
    case (Str, Text(s)) => LE(|s|, PrefixWidth(borsh)) + s
    case (Array(n, e), List(vs)) => EncodeElems(e, vs, |vs|, borsh)
    case (Slice(e), List(vs)) => LE(|vs|, PrefixWidth(borsh)) + EncodeElems(e, vs, |vs|, borsh)
    case (Pointer(_), Nothing) => [0]
    case (Pointer(e), Just(x)) => [1] + Encode(e, x, borsh)
    case (Struct(fields, _), List(vs)) => EncodeFields(t, vs, |fields|, borsh)
    case _ => []
  }

  function EncodeElems(e: GoType, vs: seq<Value>, n: nat, borsh: bool): (r: seq<byte>)
    requires n <= |vs|
    decreases e, 3, n
  {
    if n == 0 then [] else EncodeElems(e, vs, n - 1, borsh) + Encode(e, vs[n - 1], borsh)
  }

  function EncodeFields(t: GoType, vs: seq<Value>, n: nat, borsh: bool): (r: seq<byte>)
    requires t.Struct? && n <= |t.fields|
    decreases t, 1, n
  {
    if n == 0 then []
    else
      EncodeFields(t, vs, n - 1, borsh)
      + if n <= |vs| && IsDecoded(t.fields[n - 1]) then Encode(t.fields[n - 1].typ, vs[n - 1], borsh) else []
  }

  /** v is a value of t whose lengths fit their prefixes, with no custom or unsupported part. */
  ghost predicate Encodable(t: GoType, v: Value, borsh: bool)
    decreases t, 2, 0
  {
    match t
    case Num(w, s, _) => v.Int? && Fits(v.i, w, s)
    case Bool => v.Flag?
    case Str => v.Text? && |v.s| < Pow256(PrefixWidth(borsh))
    case Array(n, e) => v.List? && |v.vs| == n && EncodableElems(e, v.vs, n, borsh)
    case Slice(e) => v.List? && |v.vs| < Pow256(PrefixWidth(borsh)) && EncodableElems(e, v.vs, |v.vs|, borsh)
    case Pointer(e) => v.Nothing? || (v.Just? && Encodable(e, v.v, borsh))
    case Struct(fields, _) => v.List? && |v.vs| == |fields| && EncodableFields(t, v.vs, |fields|, borsh)
    case _ => false
  }

  ghost predicate EncodableElems(e: GoType, vs: seq<Value>, n: nat, borsh: bool)
    requires n <= |vs|
    decreases e, 3, n
  {
    n == 0 || (EncodableElems(e, vs, n - 1, borsh) && Encodable(e, vs[n - 1], borsh))
  }

  ghost predicate EncodableFields(t: GoType, vs: seq<Value>, n: nat, borsh: bool)
    requires t.Struct? && n <= |t.fields| && n <= |vs|
    decreases t, 1, n
  {
    n == 0
    || (EncodableFields(t, vs, n - 1, borsh)
        && if IsDecoded(t.fields[n - 1]) then Encodable(t.fields[n - 1].typ, vs[n - 1], borsh) else vs[n - 1] == Absent)
  }

  /**
   With avail bytes from the start of v's encoding to the end of the input, every slice has at most
   as many elements as bytes follow its prefix.
   */
  ghost predicate Room(t: GoType, v: Value, borsh: bool, avail: int)
    decreases t, 2, 0
  {
    match (t, v)
    case (Array(n, e), List(vs)) => RoomElems(e, vs, |vs|, borsh, avail)
    case (Slice(e), List(vs)) =>
      |vs| <= avail - PrefixWidth(borsh) && RoomElems(e, vs, |vs|, borsh, avail - PrefixWidth(borsh))
    case (Pointer(e), Just(x)) => Room(e, x, borsh, avail - 1)
    case (Struct(fields, _), List(vs)) => RoomFields(t, vs, |fields|, borsh, avail)
    case _ => true
  }

  ghost predicate RoomElems(e: GoType, vs: seq<Value>, n: nat, borsh: bool, avail: int)
    requires n <= |vs|
    decreases e, 3, n
  {
    n == 0
    || (RoomElems(e, vs, n - 1, borsh, avail)
        && Room(e, vs[n - 1], borsh, avail - |EncodeElems(e, vs, n - 1, borsh)|))
  }

  ghost predicate RoomFields(t: GoType, vs: seq<Value>, n: nat, borsh: bool, avail: int)
    requires t.Struct? && n <= |t.fields|
    decreases t, 1, n
  {
    n == 0
    || (RoomFields(t, vs, n - 1, borsh, avail)
        && (n <= |vs| && IsDecoded(t.fields[n - 1]) ==>
              Room(t.fields[n - 1].typ, vs[n - 1], borsh, avail - |EncodeFields(t, vs, n - 1, borsh)|)))
  }

  // ---------------------------------------------------------------- prefixes of value lists

  lemma {:induction false} ElemsPrefix(e: GoType, vs: seq<Value>, ws: seq<Value>, n: nat, borsh: bool, avail: int)
    requires n <= |vs| && n <= |ws| && vs[..n] == ws[..n]
    ensures EncodeElems(e, vs, n, borsh) == EncodeElems(e, ws, n, borsh)
    ensures EncodableElems(e, vs, n, borsh) == EncodableElems(e, ws, n, borsh)
    ensures RoomElems(e, vs, n, borsh, avail) == RoomElems(e, ws, n, borsh, avail)
  {
    if n > 0 {
      assert vs[n - 1] == vs[..n][n - 1] == ws[..n][n - 1] == ws[n - 1];
      assert vs[..n - 1] == vs[..n][..n - 1] == ws[..n][..n - 1] == ws[..n - 1];
      hide Encode, Encodable, Room;
      ElemsPrefix(e, vs, ws, n - 1, borsh, avail);
    }
  }

  lemma {:induction false} FieldsPrefix(t: GoType, vs: seq<Value>, ws: seq<Value>, n: nat, borsh: bool, avail: int)
    requires t.Struct? && n <= |t.fields| && n <= |vs| && n <= |ws| && vs[..n] == ws[..n]
    ensures EncodeFields(t, vs, n, borsh) == EncodeFields(t, ws, n, borsh)
    ensures EncodableFields(t, vs, n, borsh) == EncodableFields(t, ws, n, borsh)
    ensures RoomFields(t, vs, n, borsh, avail) == RoomFields(t, ws, n, borsh, avail)
  {
    if n > 0 {
      assert vs[n - 1] == vs[..n][n - 1] == ws[..n][n - 1] == ws[n - 1];
      assert vs[..n - 1] == vs[..n][..n - 1] == ws[..n][..n - 1] == ws[..n - 1];
      hide Encode, Encodable, Room;
      FieldsPrefix(t, vs, ws, n - 1, borsh, avail);
    }
  }

  // ---------------------------------------------------------------- soundness

  /** The value decoded at a cursor is encodable, and its encoding is what was consumed. */
  ghost predicate Sound(t: GoType, v: Value, inp: Input, pos: nat, end: nat) {
    && Encodable(t, v, inp.borsh) && Room(t, v, inp.borsh, |inp.buf| - pos)
    && At(inp.buf, pos, Encode(t, v, inp.borsh)) && end == pos + |Encode(t, v, inp.borsh)|
  }

  ghost predicate SoundElems(e: GoType, vs: seq<Value>, inp: Input, pos: nat, end: nat) {
    && EncodableElems(e, vs, |vs|, inp.borsh) && RoomElems(e, vs, |vs|, inp.borsh, |inp.buf| - pos)
    && At(inp.buf, pos, EncodeElems(e, vs, |vs|, inp.borsh)) && end == pos + |EncodeElems(e, vs, |vs|, inp.borsh)|
  }

  ghost predicate SoundFields(t: GoType, n: nat, vs: seq<Value>, inp: Input, pos: nat, end: nat)
    requires t.Struct? && n <= |t.fields| && |vs| == n
  {
    && EncodableFields(t, vs, n, inp.borsh) && RoomFields(t, vs, n, inp.borsh, |inp.buf| - pos)
    && At(inp.buf, pos, EncodeFields(t, vs, n, inp.borsh)) && end == pos + |EncodeFields(t, vs, n, inp.borsh)|
  }

  /** No decoded part of t decodes itself. */
  predicate NoCustom(t: GoType)
    decreases t, 2, 0
  {
    match t
    case Array(_, e) => NoCustom(e)
    case Slice(e) => NoCustom(e)
    case Pointer(e) => NoCustom(e)
    case Struct(fields, _) => NoCustomFields(t, |fields|)
    case Custom(_, _, _) => false
    case _ => true
  }

  predicate NoCustomFields(t: GoType, n: nat)
    requires t.Struct? && n <= |t.fields|
    decreases t, 1, n
  {
    n == 0 || (NoCustomFields(t, n - 1) && (IsDecoded(t.fields[n - 1]) ==> NoCustom(t.fields[n - 1].typ)))
  }

  lemma LenSound(inp: Input, pos: nat)
    requires GetGuardedLen(inp, pos).Ok?
    ensures var n := GetGuardedLen(inp, pos).value;
            At(inp.buf, pos, LE(n, PrefixWidth(inp.borsh))) && n < Pow256(PrefixWidth(inp.borsh))
  {
    GetLEExact(inp.buf, pos, PrefixWidth(inp.borsh), GetLen(inp, pos).value);
  }

  lemma LenComplete(inp: Input, pos: nat, n: nat)
    requires At(inp.buf, pos, LE(n, PrefixWidth(inp.borsh))) && n < Pow256(PrefixWidth(inp.borsh))
    requires n <= |inp.buf| - pos - PrefixWidth(inp.borsh)
    ensures GetGuardedLen(inp, pos) == Ok(n, pos + PrefixWidth(inp.borsh))
  {
    GetLEExact(inp.buf, pos, PrefixWidth(inp.borsh), n);
  }

  lemma LeafSound(t: GoType, inp: Input, pos: nat)
    requires t.Num? || t.Bool? || t.Str?
    requires pos <= |inp.buf| && Decode(t, inp, pos).Ok?
    ensures Sound(t, Decode(t, inp, pos).value, inp, pos, Decode(t, inp, pos).pos)
  {
    hide LE, LEValue, Pow256, Convert;
    var v := Decode(t, inp, pos).value;
    match t
    case Num(w, s, d) =>
      NumSound(w, s, d, inp, pos);
    case Bool =>
      assert Encode(t, v, inp.borsh) == inp.buf[pos..pos + 1];
    case Str =>
      hide GetGuardedLen;
      TextSound(inp, pos);
  }

  lemma NumSound(w: Width, s: bool, d: bool, inp: Input, pos: nat)
    requires GetLE(inp.buf, pos, w).Ok?
    ensures Sound(Num(w, s, d), Int(Convert(GetLE(inp.buf, pos, w).value, w, s)), inp, pos, pos + w)
  {
    hide LE, LEValue, Pow256, Convert;
    var u := GetLE(inp.buf, pos, w).value;
    GetLEExact(inp.buf, pos, w, u);
    ConvertExact(Convert(u, w, s), w, s, u);
  }

  lemma TextSound(inp: Input, pos: nat)
    requires GetGuardedLen(inp, pos).Ok?
    ensures var Ok(n, p) := GetGuardedLen(inp, pos);
            Sound(Str, Text(inp.buf[p..p + n]), inp, pos, p + n)
  {
    var Ok(n, p) := GetGuardedLen(inp, pos);
    LenSound(inp, pos);
    hide GetGuardedLen;
    AtCat(inp.buf, pos, LE(n, PrefixWidth(inp.borsh)), inp.buf[p..p + n]);
  }

  lemma SliceSound(e: GoType, inp: Input, pos: nat, vs: seq<Value>, end: nat)
    requires GetGuardedLen(inp, pos) == Ok(|vs|, pos + PrefixWidth(inp.borsh))
    requires SoundElems(e, vs, inp, pos + PrefixWidth(inp.borsh), end)
    ensures Sound(Slice(e), List(vs), inp, pos, end)
  {
    hide EncodeElems, EncodableElems, RoomElems, GetGuardedLen;
    LenSound(inp, pos);
    assert pos + PrefixWidth(inp.borsh) + |vs| <= |inp.buf|;
    AtCat(inp.buf, pos, LE(|vs|, PrefixWidth(inp.borsh)), EncodeElems(e, vs, |vs|, inp.borsh));
  }

  lemma PointerSound(e: GoType, inp: Input, pos: nat, v: Value, end: nat)
    requires pos < |inp.buf| && inp.buf[pos] == 1 && Sound(e, v, inp, pos + 1, end)
    ensures Sound(Pointer(e), Just(v), inp, pos, end)
  {
    assert inp.buf[pos..pos + 1] == [1];
    AtCat(inp.buf, pos, [1], Encode(e, v, inp.borsh));
  }

  lemma {:induction false} DecodeSound(t: GoType, inp: Input, pos: nat)
    requires NoCustom(t) && pos <= |inp.buf| && Decode(t, inp, pos).Ok?
    ensures Sound(t, Decode(t, inp, pos).value, inp, pos, Decode(t, inp, pos).pos)
    decreases t, 2, 0
  {
    hide GetGuardedLen, DecodeElems, DecodeFields, EncodeElems, EncodeFields, EncodableElems, EncodableFields,
      RoomElems, RoomFields;
    match t
    case Array(n, e) =>
      DecodeElemsSound(e, n, inp, pos);
    case Slice(e) =>
      var Ok(n, p) := GetGuardedLen(inp, pos);
      DecodeElemsSound(e, n, inp, p);
      SliceSound(e, inp, pos, DecodeElems(e, n, inp, p).value, DecodeElems(e, n, inp, p).pos);
    case Pointer(e) =>
      if inp.buf[pos] == 1 {
        DecodeSound(e, inp, pos + 1);
        PointerSound(e, inp, pos, Decode(e, inp, pos + 1).value, Decode(e, inp, pos + 1).pos);
      } else {
        assert Encode(t, Nothing, inp.borsh) == inp.buf[pos..pos + 1];
      }
    case Struct(fields, _) =>
      DecodeFieldsSound(t, |fields|, inp, pos);
    case _ =>
      LeafSound(t, inp, pos);
  }

  lemma ElemsSoundJoin(e: GoType, vs: seq<Value>, v: Value, inp: Input, pos: nat, mid: nat, end: nat)
    requires SoundElems(e, vs, inp, pos, mid) && Sound(e, v, inp, mid, end)
    ensures SoundElems(e, vs + [v], inp, pos, end)
  {
    hide At, Encode, Encodable, Room;
    var all := vs + [v];
    ElemsPrefix(e, vs, all, |vs|, inp.borsh, |inp.buf| - pos);
    assert all[|vs|] == v;
    AtCat(inp.buf, pos, EncodeElems(e, vs, |vs|, inp.borsh), Encode(e, v, inp.borsh));
  }

  lemma {:induction false} DecodeElemsSound(e: GoType, n: nat, inp: Input, pos: nat)
    requires NoCustom(e) && pos <= |inp.buf| && DecodeElems(e, n, inp, pos).Ok?
    ensures SoundElems(e, DecodeElems(e, n, inp, pos).value, inp, pos, DecodeElems(e, n, inp, pos).pos)
    decreases e, 3, n
  {
    hide Decode, Encode, Encodable, Room, Sound, SoundElems;
    if n == 0 {
      NoElemsSound(e, inp, pos);
    } else {
      var Ok(vs, p) := DecodeElems(e, n - 1, inp, pos);
      DecodeElemsSound(e, n - 1, inp, pos);
      DecodeSound(e, inp, p);
      ElemsSoundJoin(e, vs, Decode(e, inp, p).value, inp, pos, p, Decode(e, inp, p).pos);
    }
  }

  lemma NoElemsSound(e: GoType, inp: Input, pos: nat)
    requires pos <= |inp.buf|
    ensures SoundElems(e, [], inp, pos, pos)
  {
  }

  lemma FieldsSoundJoin(t: GoType, n: nat, vs: seq<Value>, v: Value, inp: Input, pos: nat, mid: nat, end: nat)
    requires t.Struct? && n < |t.fields| && |vs| == n && SoundFields(t, n, vs, inp, pos, mid)
    requires if IsDecoded(t.fields[n]) then Sound(t.fields[n].typ, v, inp, mid, end) else v == Absent && mid == end
    ensures SoundFields(t, n + 1, vs + [v], inp, pos, end)
  {
    hide At, Encode, Encodable, Room;
    var all := vs + [v];
    FieldsPrefix(t, vs, all, n, inp.borsh, |inp.buf| - pos);
    assert all[n] == v;
    if IsDecoded(t.fields[n]) {
      AtCat(inp.buf, pos, EncodeFields(t, vs, n, inp.borsh), Encode(t.fields[n].typ, v, inp.borsh));
    } else {
      assert EncodeFields(t, all, n + 1, inp.borsh) == EncodeFields(t, vs, n, inp.borsh);
    }
  }

  lemma NoFieldsSound(t: GoType, inp: Input, pos: nat)
    requires t.Struct? && pos <= |inp.buf|
    ensures SoundFields(t, 0, [], inp, pos, pos)
  {
  }

  lemma {:induction false} DecodeFieldsSound(t: GoType, n: nat, inp: Input, pos: nat)
    requires t.Struct? && n <= |t.fields| && NoCustomFields(t, n)
    requires pos <= |inp.buf| && DecodeFields(t, n, inp, pos).Ok?
    ensures SoundFields(t, n, DecodeFields(t, n, inp, pos).value, inp, pos, DecodeFields(t, n, inp, pos).pos)
    decreases t, 1, n
  {
    hide Decode, Encode, Encodable, Room, Sound, SoundFields;
    if n == 0 {
      NoFieldsSound(t, inp, pos);
    } else {
      var Ok(vs, p) := DecodeFields(t, n - 1, inp, pos);
      DecodeFieldsSound(t, n - 1, inp, pos);
      var f := t.fields[n - 1];
      if IsDecoded(f) {
        DecodeSound(f.typ, inp, p);
        FieldsSoundJoin(t, n - 1, vs, Decode(f.typ, inp, p).value, inp, pos, p, Decode(f.typ, inp, p).pos);
      } else {
        FieldsSoundJoin(t, n - 1, vs, Absent, inp, pos, p, p);
      }
    }
  }

  // ---------------------------------------------------------------- completeness

  lemma NumComplete(w: Width, s: bool, d: bool, i: int, inp: Input, pos: nat)
    requires Fits(i, w, s) && At(inp.buf, pos, LE(Pattern(i, w), w))
    ensures Decode(Num(w, s, d), inp, pos) == Ok(Int(i), pos + w)
  {
    hide LE, LEValue, Pow256, Fits, Pattern, Convert, At;
    PatternFits(i, w, s);
    GetLEExact(inp.buf, pos, w, Pattern(i, w));
    ConvertExact(i, w, s, Pattern(i, w));
  }

  lemma AtSlice(buf: seq<byte>, pos: nat, e: seq<byte>)
    requires At(buf, pos, e)
    ensures pos + |e| <= |buf| && buf[pos..pos + |e|] == e
  {
  }

  lemma TextComplete(s: seq<byte>, inp: Input, pos: nat)
    requires |s| < Pow256(PrefixWidth(inp.borsh)) && At(inp.buf, pos, LE(|s|, PrefixWidth(inp.borsh)) + s)
    ensures pos <= |inp.buf| && Decode(Str, inp, pos) == Ok(Text(s), pos + PrefixWidth(inp.borsh) + |s|)
  {
    hide GetGuardedLen, LE, Pow256, At;
    var w := PrefixWidth(inp.borsh);
    AtCat(inp.buf, pos, LE(|s|, w), s);
    AtSlice(inp.buf, pos + w, s);
    LenComplete(inp, pos, |s|);
  }

  lemma LeafComplete(t: GoType, v: Value, inp: Input, pos: nat)
    requires t.Num? || t.Bool? || t.Str?
    requires Encodable(t, v, inp.borsh) && At(inp.buf, pos, Encode(t, v, inp.borsh))
    ensures Decode(t, inp, pos) == Ok(v, pos + |Encode(t, v, inp.borsh)|)
  {
    hide At, Fits, Pow256, LE, PrefixWidth;
    match t
    case Num(w, s, d) =>
      NumComplete(w, s, d, v.i, inp, pos);
    case Bool =>
      GetU8Exact(inp.buf, pos, if v.f then 1 else 0);
    case Str =>
      TextComplete(v.s, inp, pos);
  }

  lemma {:induction false} DecodeComplete(t: GoType, v: Value, inp: Input, pos: nat)
    requires Encodable(t, v, inp.borsh) && At(inp.buf, pos, Encode(t, v, inp.borsh))
    requires Room(t, v, inp.borsh, |inp.buf| - pos)
    ensures Decode(t, inp, pos) == Ok(v, pos + |Encode(t, v, inp.borsh)|)
    decreases t, 2, 0
  {
    hide GetGuardedLen, DecodeElems, DecodeFields, EncodeElems, EncodeFields, EncodableElems, EncodableFields,
      RoomElems, RoomFields, At, LE, Pow256;
    AtBound(inp.buf, pos, Encode(t, v, inp.borsh));
    match t
    case Array(n, e) =>
      assert v.vs[..n] == v.vs;
      DecodeElemsComplete(e, v.vs, n, inp, pos);
    case Slice(e) =>
      var n, w := |v.vs|, PrefixWidth(inp.borsh);
      assert v.vs[..n] == v.vs;
      AtCat(inp.buf, pos, LE(n, w), EncodeElems(e, v.vs, n, inp.borsh));
      LenComplete(inp, pos, n);
      DecodeElemsComplete(e, v.vs, n, inp, pos + w);
    case Pointer(e) =>
      if v.Just? {
        AtCat(inp.buf, pos, [1], Encode(e, v.v, inp.borsh));
        GetU8Exact(inp.buf, pos, 1);
        DecodeComplete(e, v.v, inp, pos + 1);
      } else {
        GetU8Exact(inp.buf, pos, 0);
      }
    case Struct(fields, _) =>
      assert v.vs[..|fields|] == v.vs;
      DecodeFieldsComplete(t, v.vs, |fields|, inp, pos);
    case _ =>
      LeafComplete(t, v, inp, pos);
  }

  /** The premises of completeness: v stands encoded at pos, with room. */
  ghost predicate Stands(t: GoType, v: Value, inp: Input, pos: nat) {
    && Encodable(t, v, inp.borsh) && At(inp.buf, pos, Encode(t, v, inp.borsh))
    && Room(t, v, inp.borsh, |inp.buf| - pos)
  }

  ghost predicate ElemsStand(e: GoType, vs: seq<Value>, n: nat, inp: Input, pos: nat)
    requires n <= |vs|
  {
    && EncodableElems(e, vs, n, inp.borsh) && At(inp.buf, pos, EncodeElems(e, vs, n, inp.borsh))
    && RoomElems(e, vs, n, inp.borsh, |inp.buf| - pos)
  }

  ghost predicate FieldsStand(t: GoType, vs: seq<Value>, n: nat, inp: Input, pos: nat)
    requires t.Struct? && n <= |t.fields| && n <= |vs|
  {
    && EncodableFields(t, vs, n, inp.borsh) && At(inp.buf, pos, EncodeFields(t, vs, n, inp.borsh))
    && RoomFields(t, vs, n, inp.borsh, |inp.buf| - pos)
  }

  lemma ElemsSplit(e: GoType, vs: seq<Value>, n: nat, inp: Input, pos: nat)
    requires 0 < n <= |vs| && ElemsStand(e, vs, n, inp, pos)
    ensures ElemsStand(e, vs, n - 1, inp, pos)
    ensures Stands(e, vs[n - 1], inp, pos + |EncodeElems(e, vs, n - 1, inp.borsh)|)
    ensures |EncodeElems(e, vs, n, inp.borsh)| ==
            |EncodeElems(e, vs, n - 1, inp.borsh)| + |Encode(e, vs[n - 1], inp.borsh)|
    ensures vs[..n] == vs[..n - 1] + [vs[n - 1]]
  {
    hide At, Encode, Encodable, Room;
    AtCat(inp.buf, pos, EncodeElems(e, vs, n - 1, inp.borsh), Encode(e, vs[n - 1], inp.borsh));
  }

  lemma {:induction false} DecodeElemsComplete(e: GoType, vs: seq<Value>, n: nat, inp: Input, pos: nat)
    requires n <= |vs| && pos <= |inp.buf| && ElemsStand(e, vs, n, inp, pos)
    ensures DecodeElems(e, n, inp, pos) == Ok(vs[..n], pos + |EncodeElems(e, vs, n, inp.borsh)|)
    decreases e, 3, n
  {
    hide Decode, Encode, Encodable, Room, Stands, ElemsStand;
    if n > 0 {
      ElemsSplit(e, vs, n, inp, pos);
      DecodeElemsComplete(e, vs, n - 1, inp, pos);
      StandsComplete(e, vs[n - 1], inp, pos + |EncodeElems(e, vs, n - 1, inp.borsh)|);
    }
  }

  lemma {:induction false} StandsComplete(t: GoType, v: Value, inp: Input, pos: nat)
    requires Stands(t, v, inp, pos)
    ensures pos <= |inp.buf| && Decode(t, inp, pos) == Ok(v, pos + |Encode(t, v, inp.borsh)|)
    decreases t, 2, 1
  {
    hide Decode, Encode, Encodable, Room;
    DecodeComplete(t, v, inp, pos);
  }

  lemma FieldsSplit(t: GoType, vs: seq<Value>, n: nat, inp: Input, pos: nat)
    requires t.Struct? && 0 < n <= |t.fields| && n <= |vs| && FieldsStand(t, vs, n, inp, pos)
    ensures FieldsStand(t, vs, n - 1, inp, pos)
    ensures var f, front := t.fields[n - 1], EncodeFields(t, vs, n - 1, inp.borsh);
            if IsDecoded(f) then
              && Stands(f.typ, vs[n - 1], inp, pos + |front|)
              && |EncodeFields(t, vs, n, inp.borsh)| == |front| + |Encode(f.typ, vs[n - 1], inp.borsh)|
            else vs[n - 1] == Absent && EncodeFields(t, vs, n, inp.borsh) == front
    ensures vs[..n] == vs[..n - 1] + [vs[n - 1]]
  {
    hide At, Encode, Encodable, Room;
    var front := EncodeFields(t, vs, n - 1, inp.borsh);
    if IsDecoded(t.fields[n - 1]) {
      AtCat(inp.buf, pos, front, Encode(t.fields[n - 1].typ, vs[n - 1], inp.borsh));
    } else {
      assert EncodeFields(t, vs, n, inp.borsh) == front;
    }
  }

  lemma {:induction false} DecodeFieldsComplete(t: GoType, vs: seq<Value>, n: nat, inp: Input, pos: nat)
    requires t.Struct? && n <= |t.fields| && n <= |vs| && pos <= |inp.buf| && FieldsStand(t, vs, n, inp, pos)
    ensures DecodeFields(t, n, inp, pos) == Ok(vs[..n], pos + |EncodeFields(t, vs, n, inp.borsh)|)
    decreases t, 1, n
  {
    hide Decode, Encode, Encodable, Room, Stands, FieldsStand;
    if n > 0 {
      FieldsSplit(t, vs, n, inp, pos);
      DecodeFieldsComplete(t, vs, n - 1, inp, pos);
      if IsDecoded(t.fields[n - 1]) {
        StandsComplete(t.fields[n - 1].typ, vs[n - 1], inp, pos + |EncodeFields(t, vs, n - 1, inp.borsh)|);
      }
    }
  }

  /**
   The decoder accepts exactly the encodings that leave every slice room: it returns v if and only if
   v's encoding stands at the cursor and no slice has more elements than bytes follow its prefix.
   */
  lemma DecodeExact(t: GoType, v: Value, inp: Input, pos: nat)
    requires NoCustom(t) && pos <= |inp.buf|
    ensures Exactly(Decode(t, inp, pos), v, inp.buf, pos, Encode(t, v, inp.borsh),
                    Encodable(t, v, inp.borsh) && Room(t, v, inp.borsh, |inp.buf| - pos))
  {
    hide Decode, Encode, Encodable, Room;
    if Decode(t, inp, pos).Ok? && Decode(t, inp, pos).value == v {
      DecodeSound(t, inp, pos);
    }
    if Encodable(t, v, inp.borsh) && Room(t, v, inp.borsh, |inp.buf| - pos)
       && At(inp.buf, pos, Encode(t, v, inp.borsh)) {
      DecodeComplete(t, v, inp, pos);
    }
  }
}

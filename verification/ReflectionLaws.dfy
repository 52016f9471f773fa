/** When decoding inverts encoding without condition, and when the two modes agree. */
module ReflectionLaws {
  import opened Wire
  import opened GoTypes
  import opened Reflection

  // ---------------------------------------------------------------- well-typed results

  lemma {:induction false} DecodeTyped(t: GoType, inp: Input, pos: nat)
    requires pos <= |inp.buf| && Decode(t, inp, pos).Ok?
    ensures Typed(t, Decode(t, inp, pos).value)
    decreases t, 2, 0
  {
    hide DecodeElems, DecodeFields, LEValue;
    match t
    case Num(w, s, _) =>
      var u := GetLE(inp.buf, pos, w).value;
      ConvertExact(Convert(u, w, s), w, s, u);
    case Array(n, e) =>
      DecodeElemsTyped(e, n, inp, pos);
    case Slice(e) =>
      var Ok(n, p) := GetGuardedLen(inp, pos);
      DecodeElemsTyped(e, n, inp, p);
    case Pointer(e) =>
      if inp.buf[pos] == 1 {
        DecodeTyped(e, inp, pos + 1);
      }
    case Struct(fields, _) =>
      DecodeFieldsTyped(t, |fields|, inp, pos);
    case _ =>
  }

  lemma {:induction false} DecodeElemsTyped(e: GoType, n: nat, inp: Input, pos: nat)
    requires pos <= |inp.buf| && DecodeElems(e, n, inp, pos).Ok?
    ensures forall i :: 0 <= i < n ==> Typed(e, DecodeElems(e, n, inp, pos).value[i])
    decreases e, 3, n
  {
    hide Decode, Typed;
    if n > 0 {
      DecodeElemsTyped(e, n - 1, inp, pos);
      DecodeTyped(e, inp, DecodeElems(e, n - 1, inp, pos).pos);
    }
  }

  lemma {:induction false} DecodeFieldsTyped(t: GoType, n: nat, inp: Input, pos: nat)
    requires t.Struct? && n <= |t.fields| && pos <= |inp.buf| && DecodeFields(t, n, inp, pos).Ok?
    ensures var vs := DecodeFields(t, n, inp, pos).value;
            forall i :: 0 <= i < n ==>
              if IsDecoded(t.fields[i]) then Typed(t.fields[i].typ, vs[i]) else vs[i] == Absent
    decreases t, 1, n
  {
    hide Decode, Typed;
    if n > 0 {
      DecodeFieldsTyped(t, n - 1, inp, pos);
      if IsDecoded(t.fields[n - 1]) {
        DecodeTyped(t.fields[n - 1].typ, inp, DecodeFields(t, n - 1, inp, pos).pos);
      }
    }
  }

  // ---------------------------------------------------------------- custom types, fields, refusals

  /**
   A type that decodes itself gets exactly what its unmarshaler returns: the image and the cursor when
   they are possible, its error unchanged otherwise.
   */
  lemma CustomDecodes(t: GoType, inp: Input, pos: nat)
    requires t.Custom? && pos <= |inp.buf|
    ensures match inp.customs(t.id, Size(t), inp.buf, pos, inp.borsh)
            case Ok(image, p) =>
              Decode(t, inp, pos) ==
              if |image| == Size(t) && pos <= p <= |inp.buf| then Ok(Image(image), p) else Err(Error.Custom)
            case Err(e) => Decode(t, inp, pos) == Err(e)
  {
  }

  /** The decoded fields of a struct are the exported ones that are not tagged to be skipped. */
  lemma FieldsDecodedExactly(t: GoType, inp: Input, pos: nat, i: nat)
    requires t.Struct? && pos <= |inp.buf| && Decode(t, inp, pos).Ok? && i < |t.fields|
    ensures Decode(t, inp, pos).value.List? && |Decode(t, inp, pos).value.vs| == |t.fields|
    ensures Decode(t, inp, pos).value.vs[i] == Absent <==> !t.fields[i].exported || t.fields[i].skipped
  {
    DecodeTyped(t, inp, pos);
    hide Decode;
  }

  // ---------------------------------------------------------------- what is read, part by part

  /** The bytes that a number, a flag, an option or a string is read from. */
  lemma DecodedForms(inp: Input, pos: nat, w: Width, s: bool, d: bool, e: GoType)
    requires pos <= |inp.buf|
    ensures pos + w <= |inp.buf| ==>
              && var u: int := LEValue(inp.buf[pos..pos + w]);
              && var top: int := Pow256(w);
              Decode(Num(w, s, d), inp, pos) == Ok(Int(if s && 2 * u >= top then u - top else u), pos + w)
    ensures pos < |inp.buf| && inp.buf[pos] == 0 ==>
              Decode(Bool, inp, pos) == Ok(Flag(false), pos + 1) && Decode(Pointer(e), inp, pos) == Ok(Nothing, pos + 1)
    ensures pos < |inp.buf| && inp.buf[pos] == 1 ==>
              && Decode(Bool, inp, pos) == Ok(Flag(true), pos + 1)
              && Decode(Pointer(e), inp, pos) == match Decode(e, inp, pos + 1)
                                                 case Ok(v, p) => Ok(Just(v), p)
                                                 case Err(error) => Err(error)
  {
    hide LEValue, Pow256;
  }

  /** The elements are read one behind the other: cs are the cursors between them. */
  ghost predicate InTurn(e: GoType, inp: Input, vs: seq<Value>, cs: seq<nat>) {
    && |cs| == |vs| + 1
    && forall i: nat :: i < |vs| ==> cs[i] <= |inp.buf| && Decode(e, inp, cs[i]) == Ok(vs[i], cs[i + 1])
  }

  lemma {:induction false} ElemsInTurn(e: GoType, n: nat, inp: Input, pos: nat) returns (cs: seq<nat>)
    requires pos <= |inp.buf| && DecodeElems(e, n, inp, pos).Ok?
    ensures InTurn(e, inp, DecodeElems(e, n, inp, pos).value, cs)
    ensures cs[0] == pos && cs[n] == DecodeElems(e, n, inp, pos).pos
  {
    hide Decode;
    if n == 0 {
      cs := [pos];
    } else {
      var before := ElemsInTurn(e, n - 1, inp, pos);
      cs := before + [DecodeElems(e, n, inp, pos).pos];
    }
  }

  /** The elements of an array are read in order from the cursor on. */
  lemma ArrayInTurn(n: nat, e: GoType, inp: Input, pos: nat) returns (cs: seq<nat>)
    requires pos <= |inp.buf| && Decode(Array(n, e), inp, pos).Ok?
    ensures Decode(Array(n, e), inp, pos).value.List?
    ensures var Ok(v, p) := Decode(Array(n, e), inp, pos);
            |v.vs| == n && InTurn(e, inp, v.vs, cs) && cs[0] == pos && cs[n] == p
  {
    hide InTurn, DecodeElems;
    cs := ElemsInTurn(e, n, inp, pos);
  }

  /** Those of a slice likewise, as many as its prefix counts, behind it. */
  lemma SliceInTurn(e: GoType, inp: Input, pos: nat) returns (cs: seq<nat>)
    requires pos <= |inp.buf| && Decode(Slice(e), inp, pos).Ok?
    ensures Decode(Slice(e), inp, pos).value.List?
    ensures var Ok(v, p) := Decode(Slice(e), inp, pos);
            var prefix := if inp.borsh then 4 else 8;
            && pos + prefix <= |inp.buf| && |v.vs| == LEValue(inp.buf[pos..pos + prefix])
            && InTurn(e, inp, v.vs, cs) && cs[0] == pos + prefix && cs[|v.vs|] == p
  {
    hide InTurn, DecodeElems, LEValue;
    var Ok(n, p) := GetGuardedLen(inp, pos);
    cs := ElemsInTurn(e, n, inp, p);
  }

  /** A string is the bytes that its prefix counts, behind it. */
  lemma StringBehindCount(inp: Input, pos: nat)
    requires pos <= |inp.buf| && Decode(Str, inp, pos).Ok?
    ensures Decode(Str, inp, pos).value.Text?
    ensures var Ok(v, p) := Decode(Str, inp, pos);
            var prefix := if inp.borsh then 4 else 8;
            && pos + prefix <= |inp.buf| && p == pos + prefix + LEValue(inp.buf[pos..pos + prefix]) <= |inp.buf|
            && v.s == inp.buf[pos + prefix..p]
  {
    hide LEValue;
  }

  /** Field i, if decoded, is read as v between the cursors c and d; no other field moves the cursor. */
  ghost predicate FieldRead(t: GoType, inp: Input, i: nat, v: Value, c: nat, d: nat)
    requires t.Struct? && i < |t.fields|
  {
    && c <= |inp.buf|
    && if t.fields[i].exported && !t.fields[i].skipped then Decode(t.fields[i].typ, inp, c) == Ok(v, d)
       else v == Absent && d == c
  }

  ghost predicate FieldsInTurn(t: GoType, inp: Input, vs: seq<Value>, cs: seq<nat>)
    requires t.Struct? && |vs| <= |t.fields|
  {
    |cs| == |vs| + 1 && forall i: nat :: i < |vs| ==> FieldRead(t, inp, i, vs[i], cs[i], cs[i + 1])
  }

  lemma LastFieldRead(t: GoType, n: nat, inp: Input, pos: nat)
    requires t.Struct? && 0 < n <= |t.fields| && pos <= |inp.buf| && DecodeFields(t, n, inp, pos).Ok?
    ensures DecodeFields(t, n - 1, inp, pos).Ok?
    ensures var Ok(us, c) := DecodeFields(t, n - 1, inp, pos);
            var Ok(vs, d) := DecodeFields(t, n, inp, pos);
            us == vs[..n - 1] && FieldRead(t, inp, n - 1, vs[n - 1], c, d)
  {
    hide Decode;
  }

  lemma {:induction false} SomeFieldsInTurn(t: GoType, n: nat, inp: Input, pos: nat) returns (cs: seq<nat>)
    requires t.Struct? && n <= |t.fields| && pos <= |inp.buf| && DecodeFields(t, n, inp, pos).Ok?
    ensures FieldsInTurn(t, inp, DecodeFields(t, n, inp, pos).value, cs)
    ensures cs[0] == pos && cs[n] == DecodeFields(t, n, inp, pos).pos
  {
    if n == 0 {
      cs := [pos];
    } else {
      LastFieldRead(t, n, inp, pos);
      hide Decode, DecodeFields, FieldRead;
      var before := SomeFieldsInTurn(t, n - 1, inp, pos);
      cs := before + [DecodeFields(t, n, inp, pos).pos];
    }
  }

  lemma StructInTurn(t: GoType, inp: Input, pos: nat) returns (cs: seq<nat>)
    requires t.Struct? && pos <= |inp.buf| && Decode(t, inp, pos).Ok?
    ensures Decode(t, inp, pos).value.List?
    ensures var Ok(v, p) := Decode(t, inp, pos);
            |v.vs| == |t.fields| && FieldsInTurn(t, inp, v.vs, cs) && cs[0] == pos && cs[|t.fields|] == p
  {
    hide FieldsInTurn, DecodeFields;
    cs := SomeFieldsInTurn(t, |t.fields|, inp, pos);
  }

  /** What the recursive decoder refuses, and how, at the kinds that can refuse. */
  lemma DecodeRefusals(inp: Input, pos: nat, e: GoType, w: Width, s: bool, d: bool)
    requires pos <= |inp.buf|
    ensures pos + w > |inp.buf| ==> Decode(Num(w, s, d), inp, pos) == Err(ShortBuffer)
    ensures pos == |inp.buf| ==>
              Decode(Bool, inp, pos) == Err(ShortBuffer) && Decode(Pointer(e), inp, pos) == Err(ShortBuffer)
    ensures pos < |inp.buf| && inp.buf[pos] > 1 ==>
              Decode(Bool, inp, pos) == Err(InvalidBool) && Decode(Pointer(e), inp, pos) == Err(InvalidOptionTag)
  {
    hide LEValue;
  }

  /** A count is refused when its prefix is cut short, or when it is larger than what follows it. */
  lemma CountRefusals(inp: Input, pos: nat, e: GoType)
    requires pos <= |inp.buf|
    ensures var prefix := if inp.borsh then 4 else 8;
            if pos + prefix > |inp.buf| then
              Decode(Str, inp, pos) == Err(ShortBuffer) && Decode(Slice(e), inp, pos) == Err(ShortBuffer)
            else
              LEValue(inp.buf[pos..pos + prefix]) > |inp.buf| - pos - prefix ==>
                && Decode(Str, inp, pos) == Err(LengthExceedsInput)
                && Decode(Slice(e), inp, pos) == Err(LengthExceedsInput)
  {
    hide LEValue, Pow256, Size;
  }

  /** Go's sizes of headers, and of arrays. */
  lemma GoSizes(e: GoType, n: nat)
    ensures Size(Str) == 16 && Size(Slice(e)) == 24 && Size(Pointer(e)) == 8 && Size(Array(n, e)) == n * Size(e)
  {
  }

  // ---------------------------------------------------------------- zero-width elements

  /** Every value of t encodes to at least one byte. */
  predicate TakesByte(t: GoType)
    decreases t, 2, 0
  {
    match t
    case Array(n, e) => n > 0 && TakesByte(e)
    case Struct(fields, _) => FieldTakesByte(t, |fields|)
    case _ => true
  }

  predicate FieldTakesByte(t: GoType, n: nat)
    requires t.Struct? && n <= |t.fields|
    decreases t, 1, n
  {
    n > 0
    && (FieldTakesByte(t, n - 1) || (IsDecoded(t.fields[n - 1]) && TakesByte(t.fields[n - 1].typ)))
  }

  lemma {:induction false} Width(t: GoType, v: Value, borsh: bool)
    requires Encodable(t, v, borsh)
    ensures TakesByte(t) <==> |Encode(t, v, borsh)| > 0
    decreases t, 2, 0
  {
    match t
    case Array(n, e) => ElemsWidth(e, v.vs, n, borsh);
    case Struct(fields, _) => FieldsWidth(t, v.vs, |fields|, borsh);
    case _ =>
  }

  lemma {:induction false} ElemsWidth(e: GoType, vs: seq<Value>, n: nat, borsh: bool)
    requires n <= |vs| && EncodableElems(e, vs, n, borsh)
    ensures TakesByte(e) ==> |EncodeElems(e, vs, n, borsh)| >= n
    ensures !TakesByte(e) ==> |EncodeElems(e, vs, n, borsh)| == 0
    decreases e, 3, n
  {
    hide Encode, Encodable, TakesByte;
    if n > 0 {
      ElemsWidth(e, vs, n - 1, borsh);
      Width(e, vs[n - 1], borsh);
    }
  }

  lemma {:induction false} FieldsWidth(t: GoType, vs: seq<Value>, n: nat, borsh: bool)
    requires t.Struct? && n <= |t.fields| && n <= |vs| && EncodableFields(t, vs, n, borsh)
    ensures FieldTakesByte(t, n) <==> |EncodeFields(t, vs, n, borsh)| > 0
    decreases t, 1, n
  {
    hide Encode, Encodable, TakesByte;
    if n > 0 {
      FieldsWidth(t, vs, n - 1, borsh);
      if IsDecoded(t.fields[n - 1]) {
        Width(t.fields[n - 1].typ, vs[n - 1], borsh);
      }
    }
  }

  /** The elements of every slice take at least one byte. */
  predicate Thick(t: GoType)
    decreases t, 2, 0
  {
    match t
    case Array(_, e) => Thick(e)
    case Slice(e) => TakesByte(e) && Thick(e)
    case Pointer(e) => Thick(e)
    case Struct(fields, _) => ThickFields(t, |fields|)
    case _ => true
  }

  predicate ThickFields(t: GoType, n: nat)
    requires t.Struct? && n <= |t.fields|
    decreases t, 1, n
  {
    n == 0 || (ThickFields(t, n - 1) && (IsDecoded(t.fields[n - 1]) ==> Thick(t.fields[n - 1].typ)))
  }

  /** Then the guard rejects no input that holds the whole encoding. */
  lemma {:induction false} ThickHasRoom(t: GoType, v: Value, borsh: bool, avail: int)
    requires Thick(t) && Encodable(t, v, borsh) && |Encode(t, v, borsh)| <= avail
    ensures Room(t, v, borsh, avail)
    decreases t, 2, 0
  {
    hide EncodeElems, EncodeFields, EncodableElems, EncodableFields, RoomElems, RoomFields, TakesByte;
    match t
    case Array(n, e) =>
      ThickElemsHaveRoom(e, v.vs, n, borsh, avail);
    case Slice(e) =>
      ElemsWidth(e, v.vs, |v.vs|, borsh);
      ThickElemsHaveRoom(e, v.vs, |v.vs|, borsh, avail - PrefixWidth(borsh));
    case Pointer(e) =>
      if v.Just? {
        ThickHasRoom(e, v.v, borsh, avail - 1);
      }
    case Struct(fields, _) =>
      ThickFieldsHaveRoom(t, v.vs, |fields|, borsh, avail);
    case _ =>
  }

  lemma {:induction false} ThickElemsHaveRoom(e: GoType, vs: seq<Value>, n: nat, borsh: bool, avail: int)
    requires n <= |vs| && Thick(e) && EncodableElems(e, vs, n, borsh) && |EncodeElems(e, vs, n, borsh)| <= avail
    ensures RoomElems(e, vs, n, borsh, avail)
    decreases e, 3, n
  {
    hide Encode, Encodable, Room, Thick;
    if n > 0 {
      ThickElemsHaveRoom(e, vs, n - 1, borsh, avail);
      ThickHasRoom(e, vs[n - 1], borsh, avail - |EncodeElems(e, vs, n - 1, borsh)|);
    }
  }

  lemma {:induction false} ThickFieldsHaveRoom(t: GoType, vs: seq<Value>, n: nat, borsh: bool, avail: int)
    requires t.Struct? && n <= |t.fields| && n <= |vs|
    requires ThickFields(t, n) && EncodableFields(t, vs, n, borsh) && |EncodeFields(t, vs, n, borsh)| <= avail
    ensures RoomFields(t, vs, n, borsh, avail)
    decreases t, 1, n
  {
    hide Encode, Encodable, Room, Thick;
    if n > 0 {
      ThickFieldsHaveRoom(t, vs, n - 1, borsh, avail);
      if IsDecoded(t.fields[n - 1]) {
        ThickHasRoom(t.fields[n - 1].typ, vs[n - 1], borsh, avail - |EncodeFields(t, vs, n - 1, borsh)|);
      }
    }
  }

  /** Decoding the encoding of any value, before any suffix, returns it and leaves exactly the suffix. */
  lemma EncodingDecodes(t: GoType, v: Value, borsh: bool, suffix: seq<byte>, customs: Unmarshalers)
    requires Thick(t) && Encodable(t, v, borsh)
    ensures var e := Encode(t, v, borsh);
            Decode(t, Input(e + suffix, borsh, customs), 0) == Ok(v, |e|)
  {
    var e := Encode(t, v, borsh);
    hide *;
    AtWhole(e, suffix);
    ThickHasRoom(t, v, borsh, |e + suffix|);
    DecodeComplete(t, v, Input(e + suffix, borsh, customs), 0);
  }

  lemma SliceCustom(e: GoType)
    ensures NoCustom(Slice(e)) == NoCustom(e)
  {
  }

  /**
   For a slice of elements without a wire width the guard does reject: the encoding of n of them
   decodes if and only if at least n unrelated bytes follow it.
   */
  lemma ZeroWidthSlices(e: GoType, vs: seq<Value>, borsh: bool, suffix: seq<byte>, customs: Unmarshalers)
    requires NoCustom(e) && Thick(e) && !TakesByte(e) && Encodable(Slice(e), List(vs), borsh)
    ensures var enc := Encode(Slice(e), List(vs), borsh);
            Decode(Slice(e), Input(enc + suffix, borsh, customs), 0) == Ok(List(vs), |enc|) <==> |vs| <= |suffix|
  {
    hide Decode, EncodeElems, EncodableElems, RoomElems, NoCustom, Thick, TakesByte, LE, Pow256;
    var t, v := Slice(e), List(vs);
    assert NoCustom(t) == NoCustom(e) by {
      SliceCustom(e);
    }
    var enc := Encode(t, v, borsh);
    var w := PrefixWidth(borsh);
    ElemsWidth(e, vs, |vs|, borsh);
    AtWhole(enc, suffix);
    DecodeExact(t, v, Input(enc + suffix, borsh, customs), 0);
    if |vs| <= |suffix| {
      ThickElemsHaveRoom(e, vs, |vs|, borsh, |enc + suffix| - w);
    }
  }

  // ---------------------------------------------------------------- the two modes

  /** No decoded part of t is a slice, a string or decodes itself. */
  predicate Unprefixed(t: GoType)
    decreases t, 2, 0
  {
    match t
    case Str => false
    case Array(_, e) => Unprefixed(e)
    case Slice(_) => false
    case Pointer(e) => Unprefixed(e)
    case Struct(fields, _) => UnprefixedFields(t, |fields|)
    case Custom(_, _, _) => false
    case _ => true
  }

  predicate UnprefixedFields(t: GoType, n: nat)
    requires t.Struct? && n <= |t.fields|
    decreases t, 1, n
  {
    n == 0 || (UnprefixedFields(t, n - 1) && (IsDecoded(t.fields[n - 1]) ==> Unprefixed(t.fields[n - 1].typ)))
  }

  /** Bincode and Borsh decode such a type alike on every input. */
  lemma {:induction false} ModesAgree(t: GoType, a: Input, b: Input, pos: nat)
    requires Unprefixed(t) && a.buf == b.buf && pos <= |a.buf|
    ensures Decode(t, a, pos) == Decode(t, b, pos)
    decreases t, 2, 0
  {
    match t
    case Array(n, e) => ElemsModesAgree(e, n, a, b, pos);
    case Pointer(e) =>
      if pos < |a.buf| {
        ModesAgree(e, a, b, pos + 1);
      }
    case Struct(fields, _) => FieldsModesAgree(t, |fields|, a, b, pos);
    case _ =>
  }

  lemma {:induction false} ElemsModesAgree(e: GoType, n: nat, a: Input, b: Input, pos: nat)
    requires Unprefixed(e) && a.buf == b.buf && pos <= |a.buf|
    ensures DecodeElems(e, n, a, pos) == DecodeElems(e, n, b, pos)
    decreases e, 3, n
  {
    hide Decode, Unprefixed;
    if n > 0 {
      ElemsModesAgree(e, n - 1, a, b, pos);
      if DecodeElems(e, n - 1, a, pos).Ok? {
        ModesAgree(e, a, b, DecodeElems(e, n - 1, a, pos).pos);
      }
    }
  }

  lemma {:induction false} FieldsModesAgree(t: GoType, n: nat, a: Input, b: Input, pos: nat)
    requires t.Struct? && n <= |t.fields| && UnprefixedFields(t, n) && a.buf == b.buf && pos <= |a.buf|
    ensures DecodeFields(t, n, a, pos) == DecodeFields(t, n, b, pos)
    decreases t, 1, n
  {
    hide Decode, Unprefixed;
    if n > 0 {
      FieldsModesAgree(t, n - 1, a, b, pos);
      if DecodeFields(t, n - 1, a, pos).Ok? && IsDecoded(t.fields[n - 1]) {
        ModesAgree(t.fields[n - 1].typ, a, b, DecodeFields(t, n - 1, a, pos).pos);
      }
    }
  }
}

/**
 When compiled plans decode exactly as the recursive decoder, and what that guarantees about the
 decoded object and the memory around it.
 */
module PlanTheorems {
  import opened Wire
  import opened GoTypes
  import opened Reflection
  import opened ReflectionLaws
  import opened DecodePlan

  /**
   The types whose plans lose nothing: elements of kind uint8 do not decode themselves, those of slices
   are predeclared bytes, and array lengths survive their conversion to uint32, unless the array or its
   elements take no bytes anyway.
   */
  predicate Exact(t: GoType)
    decreases t, 2, 0
  {
    match t
    case Array(n, e) =>
      if IsByteKind(e) then (if e.Custom? then n == 0 else n < 0x1_0000_0000)
      else n == 0 || !TakesByte(e) || (n < 0x1_0000_0000 && Exact(e))
    case Slice(e) => if IsByteKind(e) then IsByte(e) else Exact(e)
    case Pointer(e) => Exact(e)
    case Struct(fields, _) => ExactFields(t, |fields|)
    case _ => true
  }

  predicate ExactFields(t: GoType, n: nat)
    requires t.Struct? && n <= |t.fields|
    decreases t, 1, n
  {
    n == 0 || (ExactFields(t, n - 1) && (IsDecoded(t.fields[n - 1]) ==> Exact(t.fields[n - 1].typ)))
  }

  // ---------------------------------------------------------------- types that take no bytes

  /** A type without a wire width reads nothing and writes nothing. */
  lemma {:induction false} InertOutcome(t: GoType, inp: Input, mem: seq<Cell>, at: nat, pos: nat)
    requires !TakesByte(t) && pos <= |inp.buf|
    ensures Outcome(t, inp, mem, at, pos) == Ok(mem, pos)
    ensures Planned(t, inp, mem, at, pos) == Ok(mem, pos)
    decreases t, 2, 0
  {
    match t
    case Array(n, e) =>
      ArrayOutcome(n, e, inp, mem, at, pos);
      InertElems(n, e, n, inp, mem, at, pos);
      if IsByteKind(e) {
        assert n % 0x1_0000_0000 == 0;
        PutNothing(inp, mem, at, pos);
      } else {
        InertElems(n, e, n % 0x1_0000_0000, inp, mem, at, pos);
      }
    case Struct(fields, _) =>
      StructOutcome(t, inp, mem, at, pos);
      InertFields(t, |fields|, inp, mem, at, pos);
  }

  lemma PutNothing(inp: Input, mem: seq<Cell>, at: nat, pos: nat)
    requires pos <= |inp.buf|
    ensures GetBytes(inp.buf, pos, 0) == Ok([], pos) && Put(mem, at, Raws([])) == mem
  {
    assert inp.buf[pos..pos] == [];
    assert Put(mem, at, Raws([])) == mem;
  }

  lemma ArrayOutcome(n: nat, e: GoType, inp: Input, mem: seq<Cell>, at: nat, pos: nat)
    requires pos <= |inp.buf|
    ensures Outcome(Array(n, e), inp, mem, at, pos) == ElemsOutcome(e, n, inp, mem, at, pos)
  {
    hide DecodeElems, StoreElems;
  }

  lemma StructOutcome(t: GoType, inp: Input, mem: seq<Cell>, at: nat, pos: nat)
    requires t.Struct? && pos <= |inp.buf|
    ensures Outcome(t, inp, mem, at, pos) == FieldsOutcome(t, |t.fields|, inp, mem, at, pos)
    ensures Planned(t, inp, mem, at, pos) == PlannedFields(t, |t.fields|, inp, mem, at, pos)
  {
    hide DecodeFields, StoreFields, PlannedFields;
  }

  /** Of an array of n elements that takes no bytes, the first k do nothing. */
  lemma {:induction false} InertElems(n: nat, e: GoType, k: nat, inp: Input, mem: seq<Cell>, at: nat, pos: nat)
    requires !TakesByte(Array(n, e)) && k <= n && pos <= |inp.buf|
    ensures ElemsOutcome(e, k, inp, mem, at, pos) == Ok(mem, pos)
    ensures PlannedElems(e, k, inp, mem, at, pos) == Ok(mem, pos)
    decreases e, 3, k
  {
    hide Outcome, Planned, TakesByte;
    ArrayTakesByte(n, e);
    if k > 0 {
      InertElems(n, e, k - 1, inp, mem, at, pos);
      ElemsOutcomeStep(e, k, inp, mem, at, pos);
      InertOutcome(e, inp, mem, at + (k - 1) * Size(e), pos);
    }
  }

  lemma {:induction false} InertFields(t: GoType, n: nat, inp: Input, mem: seq<Cell>, at: nat, pos: nat)
    requires t.Struct? && n <= |t.fields| && !FieldTakesByte(t, n) && pos <= |inp.buf|
    ensures FieldsOutcome(t, n, inp, mem, at, pos) == Ok(mem, pos)
    ensures PlannedFields(t, n, inp, mem, at, pos) == Ok(mem, pos)
    decreases t, 1, n
  {
    hide Outcome, Planned;
    if n > 0 {
      InertFields(t, n - 1, inp, mem, at, pos);
      FieldsOutcomeStep(t, n, inp, mem, at, pos);
      if IsDecoded(t.fields[n - 1]) {
        InertOutcome(t.fields[n - 1].typ, inp, mem, at + t.fields[n - 1].offset, pos);
      }
    }
  }

  // ---------------------------------------------------------------- exact types agree

  lemma ByteElemsAgree(n: nat, e: GoType, inp: Input, mem: seq<Cell>, at: nat, pos: nat)
    requires IsByteKind(e) && e.Num? && pos <= |inp.buf|
    ensures n < 0x1_0000_0000 ==> Planned(Array(n, e), inp, mem, at, pos) == Outcome(Array(n, e), inp, mem, at, pos)
  {
    hide Outcome, ElemsOutcome, PlannedElems, Put;
    ArrayOutcome(n, e, inp, mem, at, pos);
    BytesRefine(e.defined, n, inp, mem, at, pos);
  }

  lemma ByteSlicesAgree(inp: Input, mem: seq<Cell>, at: nat, pos: nat)
    requires pos <= |inp.buf|
    ensures var t := Slice(Num(1, false, false)); Planned(t, inp, mem, at, pos) == Outcome(t, inp, mem, at, pos)
  {
    hide GetGuardedLen, DecodeElems, StoreElems;
    if GetGuardedLen(inp, pos).Ok? {
      var Ok(n, p) := GetGuardedLen(inp, pos);
      BytesRefine(false, n, inp, Zeros(n), 0, p);
      assert Put(Zeros(n), 0, Raws(inp.buf[p..p + n])) == Raws(inp.buf[p..p + n]);
      assert n * Size(Num(1, false, false)) == n;
    }
  }

  lemma SlicesAgree(e: GoType, inp: Input, mem: seq<Cell>, at: nat, pos: nat)
    requires !IsByteKind(e) && pos <= |inp.buf|
    requires GetGuardedLen(inp, pos).Ok? ==>
               var Ok(n, p) := GetGuardedLen(inp, pos);
               PlannedElems(e, n, inp, Zeros(n * Size(e)), 0, p) == ElemsOutcome(e, n, inp, Zeros(n * Size(e)), 0, p)
    ensures Planned(Slice(e), inp, mem, at, pos) == Outcome(Slice(e), inp, mem, at, pos)
  {
    hide GetGuardedLen, PlannedElems, DecodeElems, StoreElems, Put, Header, Zeros;
  }

  lemma PointersAgree(e: GoType, inp: Input, mem: seq<Cell>, at: nat, pos: nat)
    requires pos <= |inp.buf|
    requires pos < |inp.buf| ==>
               Planned(e, inp, Zeros(Size(e)), 0, pos + 1) == Outcome(e, inp, Zeros(Size(e)), 0, pos + 1)
    ensures Planned(Pointer(e), inp, mem, at, pos) == Outcome(Pointer(e), inp, mem, at, pos)
  {
    hide Put, Header, Zeros, DecodeElems, DecodeFields, StoreElems, StoreFields, PlannedElems, PlannedFields,
      GetGuardedLen, LEValue, Convert;
  }

  lemma {:induction false} ExactAgrees(t: GoType, inp: Input, mem: seq<Cell>, at: nat, pos: nat)
    requires Exact(t) && pos <= |inp.buf|
    ensures Planned(t, inp, mem, at, pos) == Outcome(t, inp, mem, at, pos)
    decreases t, 2, 0
  {
    hide Outcome, ElemsOutcome, PlannedElems, PlannedFields, GetGuardedLen, Zeros, TakesByte;
    match t
    case Array(n, e) =>
      if !TakesByte(t) {
        InertOutcome(t, inp, mem, at, pos);
      } else {
        ArrayTakesByte(n, e);
        if IsByteKind(e) {
          ByteElemsAgree(n, e, inp, mem, at, pos);
        } else {
          ArrayOutcome(n, e, inp, mem, at, pos);
          ExactElemsAgree(e, n, inp, mem, at, pos);
        }
      }
    case Slice(e) =>
      if IsByteKind(e) {
        ByteSlicesAgree(inp, mem, at, pos);
      } else {
        if GetGuardedLen(inp, pos).Ok? {
          var Ok(n, p) := GetGuardedLen(inp, pos);
          ExactElemsAgree(e, n, inp, Zeros(n * Size(e)), 0, p);
        }
        SlicesAgree(e, inp, mem, at, pos);
      }
    case Pointer(e) =>
      if pos < |inp.buf| {
        ExactAgrees(e, inp, Zeros(Size(e)), 0, pos + 1);
      }
      PointersAgree(e, inp, mem, at, pos);
    case Struct(fields, _) =>
      StructOutcome(t, inp, mem, at, pos);
      ExactFieldsAgree(t, |fields|, inp, mem, at, pos);
    case _ =>
  }

  lemma ArrayTakesByte(n: nat, e: GoType)
    ensures TakesByte(Array(n, e)) <==> n > 0 && TakesByte(e)
    ensures IsByteKind(e) ==> TakesByte(e)
  {
  }

  lemma {:induction false} ExactElemsAgree(e: GoType, n: nat, inp: Input, mem: seq<Cell>, at: nat, pos: nat)
    requires Exact(e) && pos <= |inp.buf|
    ensures PlannedElems(e, n, inp, mem, at, pos) == ElemsOutcome(e, n, inp, mem, at, pos)
    decreases e, 3, n
  {
    hide Outcome, Planned, Exact;
    if n > 0 {
      ExactElemsAgree(e, n - 1, inp, mem, at, pos);
      ElemsOutcomeStep(e, n, inp, mem, at, pos);
      var before := PlannedElems(e, n - 1, inp, mem, at, pos);
      if before.Ok? {
        ExactAgrees(e, inp, before.value, at + (n - 1) * Size(e), before.pos);
      }
    }
  }

  lemma {:induction false} ExactFieldsAgree(t: GoType, n: nat, inp: Input, mem: seq<Cell>, at: nat, pos: nat)
    requires t.Struct? && n <= |t.fields| && ExactFields(t, n) && pos <= |inp.buf|
    ensures PlannedFields(t, n, inp, mem, at, pos) == FieldsOutcome(t, n, inp, mem, at, pos)
    decreases t, 1, n
  {
    hide Outcome, Planned, Exact;
    if n > 0 {
      ExactFieldsAgree(t, n - 1, inp, mem, at, pos);
      FieldsOutcomeStep(t, n, inp, mem, at, pos);
      var before := PlannedFields(t, n - 1, inp, mem, at, pos);
      if before.Ok? && IsDecoded(t.fields[n - 1]) {
        ExactAgrees(t.fields[n - 1].typ, inp, before.value, at + t.fields[n - 1].offset, before.pos);
      }
    }
  }

  // ---------------------------------------------------------------- theorems

  /**
   Compiling preserves meaning: executing the plan of an exact type accepts the same inputs with the
   same errors, leaves the memory as storing the decoded value does, and ends at the same cursor.
   */
  lemma PlanRefines(t: GoType, inp: Input, mem: seq<Cell>, base: nat, pos: nat)
    requires Exact(t) && Compile(t).Success? && pos <= |inp.buf|
    ensures var p := Compile(t).value;
            RunOps(p, |p.ops|, inp, mem, base, pos) == Outcome(t, inp, mem, base, pos)
  {
    hide Outcome, Planned, Exact, Emit;
    PlanPlanned(t, inp, mem, base, pos);
    ExactAgrees(t, inp, mem, base, pos);
  }

  /**
   The object read back after a successful decode is the value the recursive decoder returns, and no
   cell outside its decoded fields has changed.
   */
  lemma DecodedObject(t: GoType, inp: Input, mem: seq<Cell>, base: nat, pos: nat)
    requires Exact(t) && WellLaid(t) && Compile(t).Success? && pos <= |inp.buf| && base + Size(t) <= |mem|
    ensures var p := Compile(t).value;
            match (RunOps(p, |p.ops|, inp, mem, base, pos), Decode(t, inp, pos))
            case (Ok(after, q), Ok(v, q')) =>
              && q == q' && |after| == |mem| && Load(t, after, base) == v
              && forall k :: 0 <= k < |mem| && !Touches(t, base, k) ==> after[k] == mem[k]
            case (Err(e), Err(e')) => e == e'
            case _ => false
  {
    hide RunOps, Decode, Compile, WellLaid, Store, Load, Touches, Exact, Size;
    PlanRefines(t, inp, mem, base, pos);
    if Decode(t, inp, pos).Ok? {
      var v := Decode(t, inp, pos).value;
      DecodeTyped(t, inp, pos);
      LoadStore(t, v, mem, base);
      forall k | 0 <= k < |mem| && !Touches(t, base, k) ensures Store(t, v, mem, base)[k] == mem[k] {
        StoreFrame(t, v, mem, base, k);
      }
    }
  }

  /** End to end: decoding an encoding into memory leaves an object that reads back as the value. */
  lemma EncodedObject(t: GoType, v: Value, borsh: bool, suffix: seq<byte>, customs: Unmarshalers, mem: seq<Cell>,
                      base: nat)
    requires Exact(t) && WellLaid(t) && Supported(t) && Thick(t) && Encodable(t, v, borsh) && base + Size(t) <= |mem|
    ensures Compile(t).Success?
    ensures var e, p := Encode(t, v, borsh), Compile(t).value;
            var r := RunOps(p, |p.ops|, Input(e + suffix, borsh, customs), mem, base, 0);
            r.Ok? && r.pos == |e| && Load(t, r.value, base) == v
  {
    hide RunOps, Decode, Emit, WellLaid, Load, Touches, Exact, Size, Supported, Encode, Encodable;
    CompilesExactly(t, 0);
    EncodingDecodes(t, v, borsh, suffix, customs);
    DecodedObject(t, Input(Encode(t, v, borsh) + suffix, borsh, customs), mem, base, 0);
  }

  /**
   The plan of a type that decodes itself leaves exactly what the unmarshaler returned at the object,
   and nothing else; its error is passed on.
   */
  lemma CustomObject(t: GoType, inp: Input, mem: seq<Cell>, base: nat, pos: nat)
    requires t.Custom? && pos <= |inp.buf| && base + Size(t) <= |mem|
    ensures Compile(t).Success?
    ensures var p := Compile(t).value;
            var r := RunOps(p, |p.ops|, inp, mem, base, pos);
            match inp.customs(t.id, Size(t), inp.buf, pos, inp.borsh)
            case Ok(image, q) =>
              if |image| == Size(t) && pos <= q <= |inp.buf| then
                r == Ok(mem[..base] + image + mem[base + |image|..], q)
              else r == Err(Error.Custom)
            case Err(e) => r == Err(e)
  {
    assert Emit(t, 0) == Success([OpCallIface(0, t.id, Size(t))]);
    PlanPlanned(t, inp, mem, base, pos);
    CustomDecodes(t, inp, pos);
    hide RunOps, Decode;
    match inp.customs(t.id, Size(t), inp.buf, pos, inp.borsh)
    case Ok(image, q) =>
      if |image| == Size(t) {
        assert Put(mem, base, image) == mem[..base] + image + mem[base + |image|..];
      }
    case Err(e) =>
  }

  /** An unexported field, or one tagged to be skipped, keeps every cell it had. */
  lemma UndecodedFieldUntouched(t: GoType, inp: Input, mem: seq<Cell>, base: nat, pos: nat, i: nat)
    requires t.Struct? && Exact(t) && WellLaid(t) && Compile(t).Success? && pos <= |inp.buf|
    requires base + t.size <= |mem| && i < |t.fields| && (!t.fields[i].exported || t.fields[i].skipped)
    ensures var p := Compile(t).value;
            var r := RunOps(p, |p.ops|, inp, mem, base, pos);
            var from, to := base + t.fields[i].offset, base + t.fields[i].offset + Size(t.fields[i].typ);
            r.Ok? ==> |r.value| == |mem| && to <= |mem| && r.value[from..to] == mem[from..to]
  {
    hide RunOps, Decode, Compile, Exact, Load, Touches;
    DecodedObject(t, inp, mem, base, pos);
    var from, to := base + t.fields[i].offset, base + t.fields[i].offset + Size(t.fields[i].typ);
    forall k | from <= k < to ensures !Touches(t, base, k) {
      FieldApart(t, i, base, k);
    }
  }

  /** The cells of an undecoded field belong to no decoded part. */
  lemma FieldApart(t: GoType, i: nat, at: nat, k: nat)
    requires t.Struct? && WellLaid(t) && i < |t.fields| && !IsDecoded(t.fields[i])
    requires at + t.fields[i].offset <= k < at + t.fields[i].offset + Size(t.fields[i].typ)
    ensures !Touches(t, at, k)
  {
    FieldsApart(t, |t.fields|, i, at, k);
  }

  lemma {:induction false} FieldsApart(t: GoType, n: nat, i: nat, at: nat, k: nat)
    requires t.Struct? && WellLaid(t) && n <= |t.fields| && i < |t.fields| && !IsDecoded(t.fields[i])
    requires at + t.fields[i].offset <= k < at + t.fields[i].offset + Size(t.fields[i].typ)
    ensures !TouchesFields(t, n, at, k)
  {
    hide Touches, Size;
    if n > 0 {
      FieldsApart(t, n - 1, i, at, k);
      var f := t.fields[n - 1];
      if IsDecoded(f) && Touches(f.typ, at + f.offset, k) {
        TouchesInside(f.typ, at + f.offset, k);
      }
    }
  }

  // ---------------------------------------------------------------- the two modes

  /** Plans of unprefixed types, exact or not, decode alike in bincode and Borsh mode. */
  lemma {:induction false} PlannedModesAgree(t: GoType, a: Input, b: Input, mem: seq<Cell>, at: nat, pos: nat)
    requires Unprefixed(t) && a.buf == b.buf && pos <= |a.buf|
    ensures Planned(t, a, mem, at, pos) == Planned(t, b, mem, at, pos)
    decreases t, 2, 0
  {
    hide PlannedElems, PlannedFields, Put, Header, Zeros;
    match t
    case Array(n, e) =>
      if !IsByteKind(e) {
        PlannedElemsModesAgree(e, n % 0x1_0000_0000, a, b, mem, at, pos);
      }
    case Pointer(e) =>
      if pos < |a.buf| {
        PlannedModesAgree(e, a, b, Zeros(Size(e)), 0, pos + 1);
      }
    case Struct(fields, _) =>
      PlannedFieldsModesAgree(t, |fields|, a, b, mem, at, pos);
    case _ =>
      ModesAgree(t, a, b, pos);
  }

  lemma {:induction false} PlannedElemsModesAgree(e: GoType, n: nat, a: Input, b: Input, mem: seq<Cell>, at: nat,
                                                  pos: nat)
    requires Unprefixed(e) && a.buf == b.buf && pos <= |a.buf|
    ensures PlannedElems(e, n, a, mem, at, pos) == PlannedElems(e, n, b, mem, at, pos)
    decreases e, 3, n
  {
    hide Planned, Unprefixed;
    if n > 0 {
      PlannedElemsModesAgree(e, n - 1, a, b, mem, at, pos);
      var before := PlannedElems(e, n - 1, a, mem, at, pos);
      if before.Ok? {
        PlannedModesAgree(e, a, b, before.value, at + (n - 1) * Size(e), before.pos);
      }
    }
  }

  lemma {:induction false} PlannedFieldsModesAgree(t: GoType, n: nat, a: Input, b: Input, mem: seq<Cell>, at: nat,
                                                   pos: nat)
    requires t.Struct? && n <= |t.fields| && UnprefixedFields(t, n) && a.buf == b.buf && pos <= |a.buf|
    ensures PlannedFields(t, n, a, mem, at, pos) == PlannedFields(t, n, b, mem, at, pos)
    decreases t, 1, n
  {
    hide Planned, Unprefixed;
    if n > 0 {
      PlannedFieldsModesAgree(t, n - 1, a, b, mem, at, pos);
      var f, before := t.fields[n - 1], PlannedFields(t, n - 1, a, mem, at, pos);
      if before.Ok? && IsDecoded(f) {
        PlannedModesAgree(f.typ, a, b, before.value, at + f.offset, before.pos);
      }
    }
  }

  /** So executing their plans gives the same result, memory and cursor in both modes. */
  lemma PlansModesAgree(t: GoType, a: Input, b: Input, mem: seq<Cell>, base: nat, pos: nat)
    requires Unprefixed(t) && Compile(t).Success? && a.buf == b.buf && pos <= |a.buf|
    ensures var p := Compile(t).value;
            RunOps(p, |p.ops|, a, mem, base, pos) == RunOps(p, |p.ops|, b, mem, base, pos)
  {
    hide RunOps, Planned, Unprefixed, Emit;
    PlanPlanned(t, a, mem, base, pos);
    PlanPlanned(t, b, mem, base, pos);
    PlannedModesAgree(t, a, b, mem, base, pos);
  }
}

/**
 The plans of inexact types do decode differently. For each such type there is an input that shows it:
 all zeros but for the length prefixes and option tags that lead to the spot where the plan departs,
 with unmarshalers that consume one byte each and fail, if at all, only at that spot.
 */
module PlanExactness {
  import opened Wire
  import opened GoTypes
  import opened Reflection
  import opened ReflectionLaws
  import opened DecodePlan
  import opened PlanTheorems

  /** Unmarshalers that consume one byte, and fail at cursor spot with an error nothing else returns. */
  function Feed(spot: nat): (r: Unmarshalers) {
    (id: nat, size: nat, buf: seq<byte>, pos: nat, borsh: bool) =>
      if pos == spot then Err(BadSignature)
      else if pos < |buf| then Ok(Zeros(size), pos + 1)
      else Err(ShortBuffer)
  }

  ghost predicate Fed(inp: Input, spot: nat) {
    inp.customs == Feed(spot) && !inp.borsh
  }

  lemma FedCustom(inp: Input, spot: nat, id: nat, size: nat, pos: nat)
    requires Fed(inp, spot)
    ensures CallCustom(id, size, inp, pos) ==
            if pos == spot then Err(BadSignature)
            else if pos < |inp.buf| then Ok(Zeros(size), pos + 1)
            else Err(ShortBuffer)
  {
  }

  // ---------------------------------------------------------------- both decoders at once

  function Does(planned: bool, t: GoType, inp: Input, mem: seq<Cell>, at: nat, pos: nat): (r: Parsed<seq<Cell>>)
    requires pos <= |inp.buf|
    ensures r.Ok? ==> pos <= r.pos <= |inp.buf|
  {
    if planned then Planned(t, inp, mem, at, pos) else Outcome(t, inp, mem, at, pos)
  }

  function DoesElems(planned: bool, e: GoType, n: nat, inp: Input, mem: seq<Cell>, at: nat, pos: nat):
    (r: Parsed<seq<Cell>>)
    requires pos <= |inp.buf|
    ensures r.Ok? ==> pos <= r.pos <= |inp.buf|
  {
    if planned then PlannedElems(e, n, inp, mem, at, pos) else ElemsOutcome(e, n, inp, mem, at, pos)
  }

  function DoesFields(planned: bool, t: GoType, n: nat, inp: Input, mem: seq<Cell>, at: nat, pos: nat):
    (r: Parsed<seq<Cell>>)
    requires t.Struct? && n <= |t.fields| && pos <= |inp.buf|
    ensures r.Ok? ==> pos <= r.pos <= |inp.buf|
  {
    if planned then PlannedFields(t, n, inp, mem, at, pos) else FieldsOutcome(t, n, inp, mem, at, pos)
  }

  /** Decoding a t where r ended. */
  function Then(planned: bool, t: GoType, inp: Input, r: Parsed<seq<Cell>>, at: nat): (after: Parsed<seq<Cell>>)
    requires r.Ok? ==> r.pos <= |inp.buf|
    ensures after.Ok? ==> r.Ok? && r.pos <= after.pos <= |inp.buf|
  {
    match r
    case Ok(m, q) => Does(planned, t, inp, m, at, q)
    case Err(e) => Err(e)
  }

  lemma DoesElemsStep(planned: bool, e: GoType, n: nat, inp: Input, mem: seq<Cell>, at: nat, pos: nat)
    requires n > 0 && pos <= |inp.buf|
    ensures DoesElems(planned, e, 0, inp, mem, at, pos) == Ok(mem, pos)
    ensures DoesElems(planned, e, n, inp, mem, at, pos) ==
            Then(planned, e, inp, DoesElems(planned, e, n - 1, inp, mem, at, pos), at + (n - 1) * Size(e))
  {
    hide Outcome, Planned;
    assert DecodeElems(e, 0, inp, pos) == Ok([], pos);
    ElemsOutcomeStep(e, n, inp, mem, at, pos);
  }

  lemma DoesFieldsStep(planned: bool, t: GoType, n: nat, inp: Input, mem: seq<Cell>, at: nat, pos: nat)
    requires t.Struct? && 0 < n <= |t.fields| && pos <= |inp.buf|
    ensures var f, before := t.fields[n - 1], DoesFields(planned, t, n - 1, inp, mem, at, pos);
            DoesFields(planned, t, n, inp, mem, at, pos) ==
            if IsDecoded(f) then Then(planned, f.typ, inp, before, at + f.offset) else before
  {
    hide Outcome, Planned;
    FieldsOutcomeStep(t, n, inp, mem, at, pos);
  }

  lemma NoFields(planned: bool, t: GoType, inp: Input, mem: seq<Cell>, at: nat, pos: nat)
    requires t.Struct? && pos <= |inp.buf|
    ensures DoesFields(planned, t, 0, inp, mem, at, pos) == Ok(mem, pos)
    ensures Does(planned, t, inp, mem, at, pos) == DoesFields(planned, t, |t.fields|, inp, mem, at, pos)
  {
    StructOutcome(t, inp, mem, at, pos);
    hide Outcome, Planned;
    assert DecodeFields(t, 0, inp, pos) == Ok([], pos);
  }

  // ---------------------------------------------------------------- zero bytes

  function Count(planned: bool, n: nat): (r: nat) {
    if planned then n % 0x1_0000_0000 else n
  }

  /** How many zero bytes a t takes. */
  function Zeroed(planned: bool, t: GoType): (r: nat)
    decreases t, 2, 0
  {
    match t
    case Num(w, _, _) => w
    case Bool => 1
    case Str => 8
    case Array(n, e) => Count(planned, n) * Zeroed(planned, e)
    case Slice(_) => 8
    case Pointer(_) => 1
    case Struct(fields, _) => ZeroedFields(planned, t, |fields|)
    case Custom(_, _, _) => 1
    case Interface => 0
    case Other(_) => 0
  }

  function ZeroedFields(planned: bool, t: GoType, n: nat): (r: nat)
    requires t.Struct? && n <= |t.fields|
    decreases t, 1, n
  {
    if n == 0 then 0
    else
      var f := t.fields[n - 1];
      ZeroedFields(planned, t, n - 1) + if IsDecoded(f) then Zeroed(planned, f.typ) else 0
  }

  ghost predicate ZeroOn(buf: seq<byte>, from: nat, to: nat) {
    to <= |buf| && forall i :: from <= i < to ==> buf[i] == 0
  }

  lemma {:induction false} LEOfZero(k: nat)
    ensures forall i :: 0 <= i < k ==> LE(0, k)[i] == 0
  {
    if k > 0 {
      LEOfZero(k - 1);
      assert LE(0, k) == [0] + LE(0, k - 1);
    }
  }

  lemma ZeroLen(inp: Input, pos: nat)
    requires !inp.borsh && ZeroOn(inp.buf, pos, pos + 8)
    ensures GetGuardedLen(inp, pos) == Ok(0, pos + 8)
  {
    LEOfZero(8);
    assert inp.buf[pos..pos + 8] == LE(0, 8);
    Pow256Widths();
    LenComplete(inp, pos, 0);
  }

  lemma ZeroLeaf(planned: bool, t: GoType, inp: Input, spot: nat, mem: seq<Cell>, at: nat, pos: nat)
    requires Fed(inp, spot) && ZeroOn(inp.buf, pos, pos + Zeroed(planned, t))
    requires spot < pos || spot >= pos + Zeroed(planned, t)
    requires t.Num? || t.Bool? || t.Str? || t.Slice? || t.Pointer? || t.Custom?
    ensures var r := Does(planned, t, inp, mem, at, pos); r.Ok? && r.pos == pos + Zeroed(planned, t)
  {
    hide GetGuardedLen, LEValue, Pow256, Convert, Put, Header;
    if t.Str? || t.Slice? {
      ZeroLen(inp, pos);
    }
    if t.Slice? {
      assert DecodeElems(t.elem, 0, inp, pos + 8) == Ok([], pos + 8);
      assert PlannedElems(t.elem, 0, inp, Zeros(0 * Size(t.elem)), 0, pos + 8).pos == pos + 8;
    }
    if t.Custom? {
      FedCustom(inp, spot, t.id, Size(t), pos);
    }
  }

  lemma ArrayDoes(planned: bool, n: nat, e: GoType, inp: Input, mem: seq<Cell>, at: nat, pos: nat)
    requires pos <= |inp.buf|
    ensures var r := Does(planned, Array(n, e), inp, mem, at, pos);
            if planned && IsByteKind(e) then
              match GetBytes(inp.buf, pos, n % 0x1_0000_0000)
              case Ok(_, p) => r.Ok? && r.pos == p
              case Err(x) => r == Err(x)
            else r == DoesElems(planned, e, Count(planned, n), inp, mem, at, pos)
  {
    ArrayOutcome(n, e, inp, mem, at, pos);
    hide Outcome, ElemsOutcome, PlannedElems;
  }

  /** Over zeros every supported type decodes, to as many bytes as it takes of them. */
  lemma {:induction false} ZeroRun(planned: bool, t: GoType, inp: Input, spot: nat, mem: seq<Cell>, at: nat, pos: nat)
    requires Supported(t) && Fed(inp, spot) && ZeroOn(inp.buf, pos, pos + Zeroed(planned, t))
    requires spot < pos || spot >= pos + Zeroed(planned, t)
    ensures var r := Does(planned, t, inp, mem, at, pos); r.Ok? && r.pos == pos + Zeroed(planned, t)
    decreases t, 2, 0
  {
    hide Does, DoesElems, DoesFields, Fed;
    match t
    case Array(n, e) =>
      ArrayDoes(planned, n, e, inp, mem, at, pos);
      if IsByteKind(e) {
        assert Zeroed(planned, e) == 1 && Supported(e);
      }
      if !(planned && IsByteKind(e)) {
        ZeroElems(planned, e, Count(planned, n), inp, spot, mem, at, pos);
      }
    case Struct(fields, _) =>
      NoFields(planned, t, inp, mem, at, pos);
      ZeroFields(planned, t, |fields|, inp, spot, mem, at, pos);
    case _ =>
      ZeroLeaf(planned, t, inp, spot, mem, at, pos);
  }

  lemma {:induction false} ZeroElems(planned: bool, e: GoType, n: nat, inp: Input, spot: nat, mem: seq<Cell>, at: nat,
                                     pos: nat)
    requires Supported(e) && Fed(inp, spot) && ZeroOn(inp.buf, pos, pos + n * Zeroed(planned, e))
    requires spot < pos || spot >= pos + n * Zeroed(planned, e)
    ensures var r := DoesElems(planned, e, n, inp, mem, at, pos); r.Ok? && r.pos == pos + n * Zeroed(planned, e)
    decreases e, 3, n
  {
    hide Does, DoesElems, Fed, Supported, Zeroed;
    DoesElemsStep(planned, e, if n == 0 then 1 else n, inp, mem, at, pos);
    if n > 0 {
      Stride(n, Zeroed(planned, e));
      ZeroElems(planned, e, n - 1, inp, spot, mem, at, pos);
      var before := DoesElems(planned, e, n - 1, inp, mem, at, pos);
      ZeroRun(planned, e, inp, spot, before.value, at + (n - 1) * Size(e), before.pos);
    }
  }

  lemma {:induction false} ZeroFields(planned: bool, t: GoType, n: nat, inp: Input, spot: nat, mem: seq<Cell>, at: nat,
                                      pos: nat)
    requires t.Struct? && n <= |t.fields| && SupportedFields(t, n)
    requires Fed(inp, spot) && ZeroOn(inp.buf, pos, pos + ZeroedFields(planned, t, n))
    requires spot < pos || spot >= pos + ZeroedFields(planned, t, n)
    ensures var r := DoesFields(planned, t, n, inp, mem, at, pos); r.Ok? && r.pos == pos + ZeroedFields(planned, t, n)
    decreases t, 1, n
  {
    hide Does, DoesFields, Fed, Supported, Zeroed;
    if n == 0 {
      NoFields(planned, t, inp, mem, at, pos);
    } else {
      DoesFieldsStep(planned, t, n, inp, mem, at, pos);
      ZeroFields(planned, t, n - 1, inp, spot, mem, at, pos);
      var f, before := t.fields[n - 1], DoesFields(planned, t, n - 1, inp, mem, at, pos);
      if IsDecoded(f) {
        ZeroRun(planned, f.typ, inp, spot, before.value, at + f.offset, before.pos);
      }
    }
  }

  /** Plans never take more zeros. */
  lemma {:induction false} PlansTakeNoMore(t: GoType)
    ensures Zeroed(true, t) <= Zeroed(false, t)
    decreases t, 2, 0
  {
    match t
    case Array(n, e) =>
      PlansTakeNoMore(e);
      Product(n % 0x1_0000_0000, n, Zeroed(true, e), Zeroed(false, e));
    case Struct(fields, _) => PlanFieldsTakeNoMore(t, |fields|);
    case _ =>
  }

  lemma {:induction false} PlanFieldsTakeNoMore(t: GoType, n: nat)
    requires t.Struct? && n <= |t.fields|
    ensures ZeroedFields(true, t, n) <= ZeroedFields(false, t, n)
    decreases t, 1, n
  {
    if n > 0 {
      PlanFieldsTakeNoMore(t, n - 1);
      PlansTakeNoMore(t.fields[n - 1].typ);
    }
  }

  lemma Product(a: nat, b: nat, x: nat, y: nat)
    requires a <= b && x <= y
    ensures a * x <= b * y
    ensures a < b && y > 0 ==> a * x < b * y
    ensures a == b && b > 0 && x < y ==> a * x < b * y
  {
    assert a * x <= a * y;
    assert b * y == a * y + (b - a) * y;
    if a < b && y > 0 {
      assert (b - a) * y > 0;
    }
    if a == b && b > 0 && x < y {
      assert a * y == a * x + a * (y - x);
      assert a * (y - x) > 0;
    }
  }

  lemma {:induction false} TakesZeros(t: GoType)
    requires Supported(t) && TakesByte(t)
    ensures Zeroed(false, t) > 0
    decreases t, 2, 0
  {
    match t
    case Array(n, e) =>
      TakesZeros(e);
      Product(0, n, 0, Zeroed(false, e));
    case Struct(fields, _) => FieldsTakeZeros(t, |fields|);
    case _ =>
  }

  lemma {:induction false} FieldsTakeZeros(t: GoType, n: nat)
    requires t.Struct? && n <= |t.fields| && SupportedFields(t, n) && FieldTakesByte(t, n)
    ensures ZeroedFields(false, t, n) > 0
    decreases t, 1, n
  {
    if FieldTakesByte(t, n - 1) {
      FieldsTakeZeros(t, n - 1);
    } else {
      TakesZeros(t.fields[n - 1].typ);
    }
  }

  // ---------------------------------------------------------------- errors that only one side returns

  /** The recursive decoder does not panic. */
  lemma {:induction false} NeverPanics(t: GoType, inp: Input, spot: nat, pos: nat)
    requires Fed(inp, spot) && pos <= |inp.buf|
    ensures Decode(t, inp, pos) != Err(Panicked)
    decreases t, 2, 0
  {
    hide DecodeElems, DecodeFields, Fed, LEValue;
    match t
    case Array(n, e) => ElemsNeverPanic(e, n, inp, spot, pos);
    case Slice(e) =>
      if GetGuardedLen(inp, pos).Ok? {
        ElemsNeverPanic(e, GetGuardedLen(inp, pos).value, inp, spot, GetGuardedLen(inp, pos).pos);
      }
    case Pointer(e) =>
      if pos < |inp.buf| {
        NeverPanics(e, inp, spot, pos + 1);
      }
    case Struct(fields, _) => FieldsNeverPanic(t, |fields|, inp, spot, pos);
    case Custom(id, _, _) => FedCustom(inp, spot, id, Size(t), pos);
    case _ =>
  }

  lemma {:induction false} ElemsNeverPanic(e: GoType, n: nat, inp: Input, spot: nat, pos: nat)
    requires Fed(inp, spot) && pos <= |inp.buf|
    ensures DecodeElems(e, n, inp, pos) != Err(Panicked)
    decreases e, 3, n
  {
    hide Decode, Fed;
    if n > 0 {
      ElemsNeverPanic(e, n - 1, inp, spot, pos);
      if DecodeElems(e, n - 1, inp, pos).Ok? {
        NeverPanics(e, inp, spot, DecodeElems(e, n - 1, inp, pos).pos);
      }
    }
  }

  lemma {:induction false} FieldsNeverPanic(t: GoType, n: nat, inp: Input, spot: nat, pos: nat)
    requires t.Struct? && n <= |t.fields| && Fed(inp, spot) && pos <= |inp.buf|
    ensures DecodeFields(t, n, inp, pos) != Err(Panicked)
    decreases t, 1, n
  {
    hide Decode, Fed;
    if n > 0 {
      FieldsNeverPanic(t, n - 1, inp, spot, pos);
      if DecodeFields(t, n - 1, inp, pos).Ok? {
        NeverPanics(t.fields[n - 1].typ, inp, spot, DecodeFields(t, n - 1, inp, pos).pos);
      }
    }
  }

  /** Past the spot, plans do not fail with the spot's error. */
  lemma {:induction false} NoLateFailure(t: GoType, inp: Input, spot: nat, mem: seq<Cell>, at: nat, pos: nat)
    requires Fed(inp, spot) && spot < pos <= |inp.buf|
    ensures Planned(t, inp, mem, at, pos) != Err(BadSignature)
    decreases t, 2, 0
  {
    hide PlannedElems, PlannedFields, Fed, LEValue, Put, Header, Zeros, DecodeElems, DecodeFields;
    match t
    case Array(n, e) =>
      if !IsByteKind(e) {
        ElemsNoLateFailure(e, n % 0x1_0000_0000, inp, spot, mem, at, pos);
      }
    case Slice(e) =>
      if GetGuardedLen(inp, pos).Ok? {
        var Ok(n, p) := GetGuardedLen(inp, pos);
        ElemsNoLateFailure(e, n, inp, spot, Zeros(n * Size(e)), 0, p);
      }
    case Pointer(e) =>
      if pos < |inp.buf| {
        NoLateFailure(e, inp, spot, Zeros(Size(e)), 0, pos + 1);
      }
    case Struct(fields, _) => FieldsNoLateFailure(t, |fields|, inp, spot, mem, at, pos);
    case Custom(id, _, _) => FedCustom(inp, spot, id, Size(t), pos);
    case _ =>
  }

  lemma {:induction false} ElemsNoLateFailure(e: GoType, n: nat, inp: Input, spot: nat, mem: seq<Cell>, at: nat,
                                              pos: nat)
    requires Fed(inp, spot) && spot < pos <= |inp.buf|
    ensures PlannedElems(e, n, inp, mem, at, pos) != Err(BadSignature)
    decreases e, 3, n
  {
    hide Planned, Fed;
    if n > 0 {
      ElemsNoLateFailure(e, n - 1, inp, spot, mem, at, pos);
      var before := PlannedElems(e, n - 1, inp, mem, at, pos);
      if before.Ok? {
        NoLateFailure(e, inp, spot, before.value, at + (n - 1) * Size(e), before.pos);
      }
    }
  }

  lemma {:induction false} FieldsNoLateFailure(t: GoType, n: nat, inp: Input, spot: nat, mem: seq<Cell>, at: nat,
                                               pos: nat)
    requires t.Struct? && n <= |t.fields| && Fed(inp, spot) && spot < pos <= |inp.buf|
    ensures PlannedFields(t, n, inp, mem, at, pos) != Err(BadSignature)
    decreases t, 1, n
  {
    hide Planned, Fed;
    if n > 0 {
      FieldsNoLateFailure(t, n - 1, inp, spot, mem, at, pos);
      var before := PlannedFields(t, n - 1, inp, mem, at, pos);
      if before.Ok? {
        NoLateFailure(t.fields[n - 1].typ, inp, spot, before.value, at + t.fields[n - 1].offset, before.pos);
      }
    }
  }

  // ---------------------------------------------------------------- staying apart

  /**
   How the plan departs from the recursive decoder: it panics, it does not fail where the decoder does,
   or it ends at an earlier cursor.
   */
  datatype Kind = Panics | Misses | Lags

  ghost predicate Apart(kind: Kind, p: Parsed<seq<Cell>>, o: Parsed<seq<Cell>>, low: nat, high: nat, spot: nat) {
    match kind
    case Panics => p == Err(Panicked) && o != Err(Panicked)
    case Misses => o == Err(BadSignature) && p != Err(BadSignature) && (p.Ok? ==> p.pos > spot)
    case Lags => p.Ok? && o.Ok? && low <= p.pos < o.pos == high
  }

  /** What follows the point of departure: for lagging plans, zeros up to cursor high. */
  ghost predicate Follows(kind: Kind, inp: Input, low: nat, high: nat, spot: nat) {
    Fed(inp, spot) && (kind.Lags? ==> ZeroOn(inp.buf, low, high) && spot >= |inp.buf|)
  }

  /** Decoding on keeps the two apart. */
  lemma StaysApart(kind: Kind, t: GoType, inp: Input, spot: nat, p: Parsed<seq<Cell>>, o: Parsed<seq<Cell>>, at: nat,
                   low: nat, high: nat)
    requires (p.Ok? ==> p.pos <= |inp.buf|) && (o.Ok? ==> o.pos <= |inp.buf|)
    requires Supported(t) && Apart(kind, p, o, low, high, spot)
    requires Follows(kind, inp, low, high + Zeroed(false, t), spot)
    ensures Apart(kind, Then(true, t, inp, p, at), Then(false, t, inp, o, at), low, high + Zeroed(false, t), spot)
  {
    hide Planned, Decode, Store, Fed, Supported, Zeroed;
    match kind
    case Panics =>
      if o.Ok? {
        NeverPanics(t, inp, spot, o.pos);
      }
    case Misses =>
      if p.Ok? {
        NoLateFailure(t, inp, spot, p.value, at, p.pos);
      }
    case Lags =>
      PlansTakeNoMore(t);
      ZeroRun(true, t, inp, spot, p.value, at, p.pos);
      ZeroRun(false, t, inp, spot, o.value, at, o.pos);
  }

  lemma FollowsLess(kind: Kind, inp: Input, low: nat, high: nat, less: nat, spot: nat)
    requires Follows(kind, inp, low, high, spot) && less <= high
    ensures Follows(kind, inp, low, less, spot)
  {
  }

  /** How many zero bytes k elements take. */
  function Repeat(k: nat, e: GoType): (r: nat) {
    k * Zeroed(false, e)
  }

  lemma RepeatStep(k: nat, e: GoType)
    requires k > 0
    ensures Repeat(k, e) == Repeat(k - 1, e) + Zeroed(false, e)
  {
    hide Zeroed;
    Stride(k, Zeroed(false, e));
  }

  lemma {:induction false} ElemsStayApart(kind: Kind, e: GoType, k: nat, n: nat, inp: Input, spot: nat, mem: seq<Cell>,
                                          at: nat, pos: nat, low: nat, high: nat)
    requires k <= n && pos <= |inp.buf| && Supported(e)
    requires Apart(kind, PlannedElems(e, k, inp, mem, at, pos), ElemsOutcome(e, k, inp, mem, at, pos), low, high, spot)
    requires Follows(kind, inp, low, high + Repeat(n - k, e), spot)
    ensures Apart(kind, PlannedElems(e, n, inp, mem, at, pos), ElemsOutcome(e, n, inp, mem, at, pos), low,
                  high + Repeat(n - k, e), spot)
    decreases n
  {
    hide Planned, Outcome, PlannedElems, ElemsOutcome, Apart, Then, Follows, Fed, Supported, Zeroed, Repeat;
    if k == n {
      NoRepeat(e);
    } else {
      RepeatStep(n - k, e);
      FollowsLess(kind, inp, low, high + Repeat(n - k, e), high + Repeat(n - 1 - k, e), spot);
      ElemsStayApart(kind, e, k, n - 1, inp, spot, mem, at, pos, low, high);
      DoesElemsStep(true, e, n, inp, mem, at, pos);
      DoesElemsStep(false, e, n, inp, mem, at, pos);
      StaysApart(kind, e, inp, spot, PlannedElems(e, n - 1, inp, mem, at, pos),
                 ElemsOutcome(e, n - 1, inp, mem, at, pos), at + (n - 1) * Size(e), low, high + Repeat(n - 1 - k, e));
    }
  }

  lemma NoRepeat(e: GoType)
    ensures Repeat(0, e) == 0
  {
  }

  // ---------------------------------------------------------------- where plans depart

  /**
   Where and how the plan of a type departs: w leads to the spot, off bytes on, and the recursive decoder
   takes at most need bytes.
   */
  datatype Spot = Spot(kind: Kind, w: seq<byte>, off: nat, need: nat)

  /** w stands at pos, followed by zeros, with the failing cursor, if any, at the spot. */
  ghost predicate Placed(s: Spot, inp: Input, pos: nat, spot: nat) {
    && Fed(inp, spot) && At(inp.buf, pos, s.w) && pos + s.need <= |inp.buf|
    && ZeroOn(inp.buf, pos + |s.w|, |inp.buf|)
    && if s.kind.Misses? then spot == pos + s.off else spot >= |inp.buf|
  }

  /** An inexact array departs in its length or in its elements. */
  lemma InexactArray(n: nat, e: GoType)
    requires !Exact(Array(n, e)) && Supported(Array(n, e)) && Zeroed(true, Array(n, e)) == Zeroed(false, Array(n, e))
    ensures 0 < n < 0x1_0000_0000
    ensures if IsByteKind(e) then e.Custom? else Supported(e) && !Exact(e)
  {
    hide Exact, Zeroed;
    ArrayExact(n, e);
    ArrayZeroed(n, e);
    PlansTakeNoMore(e);
    if n >= 0x1_0000_0000 {
      if IsByteKind(e) {
        ByteKindZeroed(e);
      } else {
        TakesZeros(e);
      }
      Product(n % 0x1_0000_0000, n, Zeroed(true, e), Zeroed(false, e));
    }
  }

  lemma ArrayExact(n: nat, e: GoType)
    ensures Exact(Array(n, e)) <==>
            if IsByteKind(e) then (if e.Custom? then n == 0 else n < 0x1_0000_0000)
            else n == 0 || !TakesByte(e) || (n < 0x1_0000_0000 && Exact(e))
  {
  }

  lemma ArrayZeroed(n: nat, e: GoType)
    ensures Zeroed(true, Array(n, e)) == n % 0x1_0000_0000 * Zeroed(true, e)
    ensures Zeroed(false, Array(n, e)) == n * Zeroed(false, e)
  {
  }

  lemma ByteKindZeroed(e: GoType)
    requires IsByteKind(e)
    ensures Zeroed(true, e) == Zeroed(false, e) == 1 && Supported(e)
  {
  }

  ghost function SpotOf(t: GoType): (r: Spot)
    requires !Exact(t) && Supported(t)
    decreases t, 2, 0
  {
    if Zeroed(true, t) != Zeroed(false, t) then Spot(Lags, [], 0, Zeroed(false, t))
    else
      match t
      case Array(n, e) =>
        InexactArray(n, e);
        if IsByteKind(e) then Spot(Misses, [], 0, 0)
        else
          var s := SpotOf(e);
          s.(need := s.need + Repeat(n - 1, e))
      case Slice(e) =>
        if IsByteKind(e) then Spot(Panics, LE(1, 8), 0, 9)
        else
          var s := SpotOf(e);
          Spot(s.kind, LE(1, 8) + s.w, 8 + s.off, 8 + if s.need == 0 then 1 else s.need)
      case Pointer(e) =>
        var s := SpotOf(e);
        Spot(s.kind, [1] + s.w, 1 + s.off, 1 + s.need)
      case Struct(fields, _) => SpotOfFields(t, |fields|)
  }

  ghost function SpotOfFields(t: GoType, n: nat): (r: Spot)
    requires t.Struct? && n <= |t.fields| && !ExactFields(t, n) && SupportedFields(t, n)
    decreases t, 1, n
  {
    var f := t.fields[n - 1];
    if !ExactFields(t, n - 1) then
      var s := SpotOfFields(t, n - 1);
      s.(need := s.need + if IsDecoded(f) then Zeroed(false, f.typ) else 0)
    else
      var before, s := ZeroedFields(false, t, n - 1), SpotOf(f.typ);
      Spot(s.kind, ZeroBytes(before) + s.w, before + s.off, before + s.need)
  }

  /** The prefix of w before a nested spot leaves the rest placed behind it. */
  lemma PlacedBehind(front: seq<byte>, s: Spot, need: nat, inp: Input, pos: nat, spot: nat)
    requires Placed(Spot(s.kind, front + s.w, |front| + s.off, need), inp, pos, spot) && need >= |front| + s.need
    ensures At(inp.buf, pos, front) && Placed(s, inp, pos + |front|, spot)
  {
    hide Fed, ZeroOn;
    AtCat(inp.buf, pos, front, s.w);
  }

  lemma Lagging(t: GoType, inp: Input, spot: nat, mem: seq<Cell>, at: nat, pos: nat)
    requires !Exact(t) && Supported(t) && Zeroed(true, t) != Zeroed(false, t) && Placed(SpotOf(t), inp, pos, spot)
    ensures pos <= |inp.buf|
    ensures var s := SpotOf(t);
            Apart(s.kind, Planned(t, inp, mem, at, pos), Outcome(t, inp, mem, at, pos), pos + |s.w|, pos + s.need, spot)
  {
    assert SpotOf(t) == Spot(Lags, [], 0, Zeroed(false, t));
    PlansTakeNoMore(t);
    hide Planned, Outcome, Zeroed, Fed, Supported;
    ZeroRun(true, t, inp, spot, mem, at, pos);
    ZeroRun(false, t, inp, spot, mem, at, pos);
  }

  /** The unmarshaler of the first element fails; the plan never calls it. */
  lemma MissedArray(n: nat, e: GoType, inp: Input, mem: seq<Cell>, at: nat, pos: nat)
    requires 0 < n < 0x1_0000_0000 && IsByteKind(e) && e.Custom? && Fed(inp, pos) && pos <= |inp.buf|
    ensures Apart(Misses, Planned(Array(n, e), inp, mem, at, pos), Outcome(Array(n, e), inp, mem, at, pos), pos, pos,
                  pos)
  {
    ArrayDoes(true, n, e, inp, mem, at, pos);
    ArrayDoes(false, n, e, inp, mem, at, pos);
    FedCustom(inp, pos, e.id, Size(e), pos);
    assert Decode(e, inp, pos) == Err(BadSignature);
    hide Planned, Outcome, Decode, PlannedElems;
    FirstFails(e, n, inp, pos);
  }

  lemma {:induction false} FirstFails(e: GoType, n: nat, inp: Input, pos: nat)
    requires n > 0 && pos <= |inp.buf| && Decode(e, inp, pos).Err?
    ensures DecodeElems(e, n, inp, pos) == Err(Decode(e, inp, pos).error)
  {
    hide Decode;
    if n > 1 {
      FirstFails(e, n - 1, inp, pos);
    } else {
      assert DecodeElems(e, 0, inp, pos) == Ok([], pos);
    }
  }

  lemma OneAhead(inp: Input, pos: nat)
    requires !inp.borsh && At(inp.buf, pos, LE(1, 8)) && pos + 9 <= |inp.buf|
    ensures GetGuardedLen(inp, pos) == Ok(1, pos + 8)
  {
    Pow256Widths();
    LenComplete(inp, pos, 1);
  }

  lemma PanickingSlice(e: GoType, inp: Input, spot: nat, mem: seq<Cell>, at: nat, pos: nat)
    requires IsByteKind(e) && !IsByte(e) && Fed(inp, spot) && pos <= |inp.buf|
    requires GetGuardedLen(inp, pos) == Ok(1, pos + 8)
    ensures Apart(Panics, Planned(Slice(e), inp, mem, at, pos), Outcome(Slice(e), inp, mem, at, pos), pos, pos, spot)
  {
    NeverPanics(Slice(e), inp, spot, pos);
    hide GetGuardedLen, Decode, Store;
  }

  lemma SliceDoes(e: GoType, inp: Input, mem: seq<Cell>, at: nat, pos: nat)
    requires !IsByteKind(e) && pos + 8 <= |inp.buf| && GetGuardedLen(inp, pos) == Ok(1, pos + 8)
    ensures var block := Zeros(1 * Size(e));
            && Like(Planned(Slice(e), inp, mem, at, pos), PlannedElems(e, 1, inp, block, 0, pos + 8))
            && Like(Outcome(Slice(e), inp, mem, at, pos), ElemsOutcome(e, 1, inp, block, 0, pos + 8))
  {
    hide GetGuardedLen, PlannedElems, DecodeElems, StoreElems, Put, Header, Zeros;
  }

  /** The two agree up to the memory they leave. */
  predicate Like(a: Parsed<seq<Cell>>, b: Parsed<seq<Cell>>) {
    match a
    case Ok(_, p) => b.Ok? && b.pos == p
    case Err(e) => b == Err(e)
  }

  lemma ApartLike(kind: Kind, p: Parsed<seq<Cell>>, o: Parsed<seq<Cell>>, p': Parsed<seq<Cell>>, o': Parsed<seq<Cell>>,
                  low: nat, high: nat, spot: nat)
    requires Apart(kind, p, o, low, high, spot) && Like(p', p) && Like(o', o)
    ensures Apart(kind, p', o', low, high, spot)
  {
  }

  lemma PointerDoes(e: GoType, inp: Input, mem: seq<Cell>, at: nat, pos: nat)
    requires pos < |inp.buf| && inp.buf[pos] == 1
    ensures Like(Planned(Pointer(e), inp, mem, at, pos), Planned(e, inp, Zeros(Size(e)), 0, pos + 1))
    ensures Like(Outcome(Pointer(e), inp, mem, at, pos), Outcome(e, inp, Zeros(Size(e)), 0, pos + 1))
  {
    hide Put, Header, Zeros;
  }

  lemma NeedsOne(t: GoType)
    requires !Exact(t) && Supported(t) && SpotOf(t).kind.Lags?
    ensures SpotOf(t).need > 0
    decreases t
  {
    PlansTakeNoMore(t);
    if Zeroed(true, t) == Zeroed(false, t) {
      match t
      case Array(n, e) =>
        InexactArray(n, e);
        NeedsOne(e);
      case Slice(_) =>
      case Pointer(_) =>
      case Struct(fields, _) => FieldsNeedOne(t, |fields|);
    }
  }

  lemma {:induction false} FieldsNeedOne(t: GoType, n: nat)
    requires t.Struct? && n <= |t.fields| && !ExactFields(t, n) && SupportedFields(t, n)
    requires SpotOfFields(t, n).kind.Lags?
    ensures SpotOfFields(t, n).need > 0
    decreases t, n
  {
    if !ExactFields(t, n - 1) {
      FieldsNeedOne(t, n - 1);
    } else {
      NeedsOne(t.fields[n - 1].typ);
    }
  }

  /** On the input that leads to its spot, the plan of an inexact type departs. */
  lemma {:induction false} Departs(t: GoType, inp: Input, spot: nat, mem: seq<Cell>, at: nat, pos: nat)
    requires !Exact(t) && Supported(t) && Placed(SpotOf(t), inp, pos, spot)
    ensures pos <= |inp.buf|
    ensures var s := SpotOf(t);
            Apart(s.kind, Planned(t, inp, mem, at, pos), Outcome(t, inp, mem, at, pos), pos + |s.w|, pos + s.need, spot)
    decreases t, 2, 0
  {
    hide Planned, Outcome, PlannedElems, ElemsOutcome, PlannedFields, FieldsOutcome, Zeroed, ZeroedFields, Fed, Apart,
      SpotOf, SpotOfFields, At, ZeroOn;
    var s := SpotOf(t);
    AtBound(inp.buf, pos, s.w);
    if Zeroed(true, t) != Zeroed(false, t) {
      Lagging(t, inp, spot, mem, at, pos);
    } else {
      match t
      case Array(n, e) => ArrayDeparts(n, e, inp, spot, mem, at, pos);
      case Slice(e) => SliceDeparts(e, inp, spot, mem, at, pos);
      case Pointer(e) => PointerDeparts(e, inp, spot, mem, at, pos);
      case Struct(fields, _) =>
        NoFields(true, t, inp, mem, at, pos);
        NoFields(false, t, inp, mem, at, pos);
        StructSpot(t);
        FieldsDepart(t, |fields|, inp, spot, mem, at, pos);
    }
  }

  lemma StructSpot(t: GoType)
    requires t.Struct? && !Exact(t) && Supported(t) && Zeroed(true, t) == Zeroed(false, t)
    ensures !ExactFields(t, |t.fields|) && SupportedFields(t, |t.fields|)
    ensures SpotOf(t) == SpotOfFields(t, |t.fields|)
    ensures Zeroed(true, t) == ZeroedFields(true, t, |t.fields|)
    ensures Zeroed(false, t) == ZeroedFields(false, t, |t.fields|)
  {
  }

  lemma ArraySpot(n: nat, e: GoType)
    requires !Exact(Array(n, e)) && Supported(Array(n, e)) && Zeroed(true, Array(n, e)) == Zeroed(false, Array(n, e))
    ensures 0 < n < 0x1_0000_0000
    ensures if IsByteKind(e) then e.Custom? && SpotOf(Array(n, e)) == Spot(Misses, [], 0, 0)
            else
              && Supported(e) && !Exact(e)
              && SpotOf(Array(n, e)) == SpotOf(e).(need := SpotOf(e).need + Repeat(n - 1, e))
  {
    hide Exact, Supported, Zeroed;
    InexactArray(n, e);
  }

  lemma {:induction false} ArrayDeparts(n: nat, e: GoType, inp: Input, spot: nat, mem: seq<Cell>, at: nat, pos: nat)
    requires !Exact(Array(n, e)) && Supported(Array(n, e)) && Placed(SpotOf(Array(n, e)), inp, pos, spot)
    requires Zeroed(true, Array(n, e)) == Zeroed(false, Array(n, e)) && pos <= |inp.buf|
    ensures var s := SpotOf(Array(n, e));
            Apart(s.kind, Planned(Array(n, e), inp, mem, at, pos), Outcome(Array(n, e), inp, mem, at, pos),
                  pos + |s.w|, pos + s.need, spot)
    decreases e, 4, 0
  {
    hide Planned, Outcome, PlannedElems, ElemsOutcome, Zeroed, Fed, Exact, Supported, SpotOf, Repeat;
    ArraySpot(n, e);
    if IsByteKind(e) {
      MissedArray(n, e, inp, mem, at, pos);
    } else {
      var s := SpotOf(e);
      ArrayDoes(true, n, e, inp, mem, at, pos);
      ArrayDoes(false, n, e, inp, mem, at, pos);
      DoesElemsStep(true, e, 1, inp, mem, at, pos);
      DoesElemsStep(false, e, 1, inp, mem, at, pos);
      Departs(e, inp, spot, mem, at, pos);
      assert at + (1 - 1) * Size(e) == at;
      ElemsStayApart(s.kind, e, 1, n, inp, spot, mem, at, pos, pos + |s.w|, pos + s.need);
    }
  }

  lemma {:induction false} SliceDeparts(e: GoType, inp: Input, spot: nat, mem: seq<Cell>, at: nat, pos: nat)
    requires !Exact(Slice(e)) && Supported(Slice(e)) && Placed(SpotOf(Slice(e)), inp, pos, spot)
    requires pos <= |inp.buf|
    ensures var s := SpotOf(Slice(e));
            Apart(s.kind, Planned(Slice(e), inp, mem, at, pos), Outcome(Slice(e), inp, mem, at, pos),
                  pos + |s.w|, pos + s.need, spot)
    decreases e, 4, 0
  {
    hide Planned, Outcome, PlannedElems, ElemsOutcome, GetGuardedLen;
    if IsByteKind(e) {
      OneAhead(inp, pos);
      PanickingSlice(e, inp, spot, mem, at, pos);
    } else {
      var s := SpotOf(e);
      PlacedBehind(LE(1, 8), s, SpotOf(Slice(e)).need, inp, pos, spot);
      OneAhead(inp, pos);
      SliceDoes(e, inp, mem, at, pos);
      var block := Zeros(1 * Size(e));
      DoesElemsStep(true, e, 1, inp, block, 0, pos + 8);
      DoesElemsStep(false, e, 1, inp, block, 0, pos + 8);
      Departs(e, inp, spot, block, 0, pos + 8);
      if s.kind.Lags? {
        NeedsOne(e);
      }
      assert 0 + (1 - 1) * Size(e) == 0;
      ApartLike(s.kind, PlannedElems(e, 1, inp, block, 0, pos + 8), ElemsOutcome(e, 1, inp, block, 0, pos + 8),
                Planned(Slice(e), inp, mem, at, pos), Outcome(Slice(e), inp, mem, at, pos),
                pos + 8 + |s.w|, pos + 8 + s.need, spot);
    }
  }

  lemma {:induction false} PointerDeparts(e: GoType, inp: Input, spot: nat, mem: seq<Cell>, at: nat, pos: nat)
    requires !Exact(Pointer(e)) && Supported(Pointer(e)) && Placed(SpotOf(Pointer(e)), inp, pos, spot)
    requires pos <= |inp.buf|
    ensures var s := SpotOf(Pointer(e));
            Apart(s.kind, Planned(Pointer(e), inp, mem, at, pos), Outcome(Pointer(e), inp, mem, at, pos),
                  pos + |s.w|, pos + s.need, spot)
    decreases e, 4, 0
  {
    hide Planned, Outcome;
    var s := SpotOf(e);
    PlacedBehind([1], s, SpotOf(Pointer(e)).need, inp, pos, spot);
    GetU8Exact(inp.buf, pos, 1);
    PointerDoes(e, inp, mem, at, pos);
    Departs(e, inp, spot, Zeros(Size(e)), 0, pos + 1);
    ApartLike(s.kind, Planned(e, inp, Zeros(Size(e)), 0, pos + 1), Outcome(e, inp, Zeros(Size(e)), 0, pos + 1),
              Planned(Pointer(e), inp, mem, at, pos), Outcome(Pointer(e), inp, mem, at, pos),
              pos + 1 + |s.w|, pos + 1 + s.need, spot);
  }

  lemma ZerosAt(n: nat, inp: Input, pos: nat)
    requires At(inp.buf, pos, ZeroBytes(n))
    ensures ZeroOn(inp.buf, pos, pos + n)
  {
    assert forall i :: pos <= i < pos + n ==> inp.buf[i] == inp.buf[pos..pos + n][i - pos];
  }

  lemma {:induction false} FieldsDepart(t: GoType, n: nat, inp: Input, spot: nat, mem: seq<Cell>, at: nat, pos: nat)
    requires t.Struct? && n <= |t.fields| && !ExactFields(t, n) && SupportedFields(t, n)
    requires ZeroedFields(true, t, n) == ZeroedFields(false, t, n) && pos <= |inp.buf|
    requires Placed(SpotOfFields(t, n), inp, pos, spot)
    ensures var s := SpotOfFields(t, n);
            Apart(s.kind, PlannedFields(t, n, inp, mem, at, pos), FieldsOutcome(t, n, inp, mem, at, pos),
                  pos + |s.w|, pos + s.need, spot)
    decreases t, 1, n
  {
    hide Planned, Outcome, PlannedFields, FieldsOutcome, Apart, Then, Fed, Supported, Exact, Zeroed, At;
    var f := t.fields[n - 1];
    DoesFieldsStep(true, t, n, inp, mem, at, pos);
    DoesFieldsStep(false, t, n, inp, mem, at, pos);
    PlanFieldsTakeNoMore(t, n - 1);
    PlansTakeNoMore(f.typ);
    if !ExactFields(t, n - 1) {
      var s := SpotOfFields(t, n - 1);
      FieldsDepart(t, n - 1, inp, spot, mem, at, pos);
      if IsDecoded(f) {
        StaysApart(s.kind, f.typ, inp, spot, PlannedFields(t, n - 1, inp, mem, at, pos),
                   FieldsOutcome(t, n - 1, inp, mem, at, pos), at + f.offset, pos + |s.w|, pos + s.need);
      }
    } else {
      var before, s := ZeroedFields(false, t, n - 1), SpotOf(f.typ);
      PlacedBehind(ZeroBytes(before), s, before + s.need, inp, pos, spot);
      FieldsBefore(t, n - 1, inp, spot, mem, at, pos);
      var m := FieldsOutcome(t, n - 1, inp, mem, at, pos).value;
      Departs(f.typ, inp, spot, m, at + f.offset, pos + before);
      ThenDoes(f.typ, inp, m, at + f.offset, pos + before);
    }
  }

  /** Exact fields before the spot leave the same memory, at the spot. */
  lemma FieldsBefore(t: GoType, n: nat, inp: Input, spot: nat, mem: seq<Cell>, at: nat, pos: nat)
    requires t.Struct? && n <= |t.fields| && ExactFields(t, n) && SupportedFields(t, n) && pos <= |inp.buf|
    requires Fed(inp, spot) && At(inp.buf, pos, ZeroBytes(ZeroedFields(false, t, n)))
    requires spot < pos || spot >= pos + ZeroedFields(false, t, n)
    ensures PlannedFields(t, n, inp, mem, at, pos) == FieldsOutcome(t, n, inp, mem, at, pos)
    ensures FieldsOutcome(t, n, inp, mem, at, pos).Ok?
    ensures FieldsOutcome(t, n, inp, mem, at, pos).pos == pos + ZeroedFields(false, t, n)
  {
    hide PlannedFields, FieldsOutcome, ZeroedFields, ExactFields, SupportedFields, Fed;
    ZerosAt(ZeroedFields(false, t, n), inp, pos);
    ZeroFields(false, t, n, inp, spot, mem, at, pos);
    ExactFieldsAgree(t, n, inp, mem, at, pos);
  }

  lemma ThenDoes(t: GoType, inp: Input, m: seq<Cell>, at: nat, pos: nat)
    requires pos <= |inp.buf|
    ensures Then(true, t, inp, Ok(m, pos), at) == Planned(t, inp, m, at, pos)
    ensures Then(false, t, inp, Ok(m, pos), at) == Outcome(t, inp, m, at, pos)
  {
    hide Planned, Outcome;
  }

  // ---------------------------------------------------------------- exactness

  /** The plan of t does what the recursive decoder does, on every input and wherever the object lies. */
  ghost predicate Refines(t: GoType)
    requires Compile(t).Success?
  {
    var p := Compile(t).value;
    forall inp: Input, mem: seq<Cell>, base: nat, pos: nat :: pos <= |inp.buf| && base + Size(t) <= |mem| ==>
      RunOps(p, |p.ops|, inp, mem, base, pos) == Outcome(t, inp, mem, base, pos)
  }

  /** One input shows it wherever the object lies and whatever the memory holds. */
  lemma InexactDiffers(t: GoType) returns (inp: Input)
    requires !Exact(t) && Supported(t)
    ensures forall mem: seq<Cell>, base: nat :: Planned(t, inp, mem, base, 0) != Outcome(t, inp, mem, base, 0)
  {
    hide Planned, Outcome, Exact, Supported, Placed, Apart, SpotOf;
    var s := SpotOf(t);
    var spot;
    inp, spot := SpotInput(s);
    forall mem: seq<Cell>, base: nat ensures Planned(t, inp, mem, base, 0) != Outcome(t, inp, mem, base, 0) {
      Departs(t, inp, spot, mem, base, 0);
      ApartDiffers(s.kind, Planned(t, inp, mem, base, 0), Outcome(t, inp, mem, base, 0), |s.w|, s.need, spot);
    }
  }

  /** The input that leads to a spot. */
  lemma SpotInput(s: Spot) returns (inp: Input, spot: nat)
    ensures Placed(s, inp, 0, spot)
  {
    hide Feed;
    var buf := s.w + ZeroBytes(s.need);
    spot := if s.kind.Misses? then s.off else |buf|;
    inp := Input(buf, false, Feed(spot));
    AtWhole(s.w, ZeroBytes(s.need));
    assert ZeroOn(buf, |s.w|, |buf|);
  }

  lemma ApartDiffers(kind: Kind, p: Parsed<seq<Cell>>, o: Parsed<seq<Cell>>, low: nat, high: nat, spot: nat)
    requires Apart(kind, p, o, low, high, spot)
    ensures p != o
  {
  }

  /** A compiled plan refines the recursive decoder if and only if its type is exact. */
  lemma RefinesExactly(t: GoType)
    requires Compile(t).Success?
    ensures Refines(t) <==> Exact(t)
  {
    hide RunOps, Outcome, Planned, Exact, Emit, Supported;
    var p := Compile(t).value;
    CompilesExactly(t, 0);
    if Exact(t) {
      forall inp: Input, mem: seq<Cell>, base: nat, pos: nat | pos <= |inp.buf| && base + Size(t) <= |mem|
        ensures RunOps(p, |p.ops|, inp, mem, base, pos) == Outcome(t, inp, mem, base, pos)
      {
        PlanRefines(t, inp, mem, base, pos);
      }
    } else {
      var inp := InexactDiffers(t);
      PlanPlanned(t, inp, Zeros(Size(t)), 0, 0);
    }
  }

  /** An array of exact elements is decoded whole if and only if its length survives or nothing is read. */
  lemma LongArraysExactly(n: nat, e: GoType)
    requires Compile(Array(n, e)).Success? && !IsByteKind(e) && Exact(e)
    ensures Refines(Array(n, e)) <==> n < 0x1_0000_0000 || !TakesByte(e)
  {
    hide Compile, Refines, Exact, TakesByte;
    RefinesExactly(Array(n, e));
    ArrayExact(n, e);
  }

  /** A slice of kind uint8 panics if and only if its elements are not predeclared bytes and there are any. */
  lemma ByteSlicePanics(e: GoType, inp: Input, mem: seq<Cell>, base: nat, pos: nat)
    requires IsByteKind(e) && pos <= |inp.buf| && GetGuardedLen(inp, pos).Ok?
    ensures Compile(Slice(e)).Success?
    ensures var p := Compile(Slice(e)).value;
            RunOps(p, |p.ops|, inp, mem, base, pos) == Err(Panicked) <==>
            !IsByte(e) && GetGuardedLen(inp, pos).value > 0
  {
    assert Emit(Slice(e), 0) == Success([OpByteSlice(0, IsByte(e))]);
    PlanPlanned(Slice(e), inp, mem, base, pos);
    hide GetGuardedLen, RunOps;
  }
}

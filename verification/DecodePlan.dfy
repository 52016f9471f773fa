/**
 The decode plans of encoding/decode_plan.go: a type is compiled to a flat list of operations at
 offsets, which are then executed over memory. Compiled plans are proved to do exactly what the
 direct recursive decoder of module Reflection does.
 */
module DecodePlan {
  import opened Wire
  import opened GoTypes
  import opened Reflection

  /**
   OpNum stands for the eight opcodes of fixed-width integers. exact says that the elements of a byte
   slice are predeclared bytes, so that its type is []byte or a defined type over it.
   */
  datatype Op =
    | OpNum(offset: nat, width: Width, signed: bool)
    | OpBool(offset: nat)
    | OpFixedBytes(offset: nat, count: u32)
    | OpFixedArray(offset: nat, count: u32, elemSize: nat, sub: Plan)
    | OpByteSlice(offset: nat, exact: bool)
    | OpSlice(offset: nat, elemSize: nat, sub: Plan)
    | OpString(offset: nat)
    | OpPointer(offset: nat, elemSize: nat, sub: Plan)
    | OpCallIface(offset: nat, id: nat, ifaceSize: nat)

  datatype Plan = Plan(ops: seq<Op>, size: nat)

  /** The predeclared type uint8, also known as byte. */
  predicate IsByte(t: GoType) {
    t.Num? && t.width == 1 && !t.signed && !t.defined
  }

  // ---------------------------------------------------------------- compiling

  function Compile(t: GoType): (r: Result<Plan>)
    decreases t, 3, 0
  {
    var ops :- Emit(t, 0);
    Success(Plan(ops, Size(t)))
  }

  /** The operations for a t at offset off. */
  function Emit(t: GoType, off: nat): (r: Result<seq<Op>>)
    decreases t, 2, 0
  {
    match t
    case Custom(id, _, _) => Success([OpCallIface(off, id, Size(t))])
    case Num(w, s, _) => Success([OpNum(off, w, s)])
    case Bool => Success([OpBool(off)])
    case Str => Success([OpString(off)])
    case Array(n, e) =>
      if IsByteKind(e) then Success([OpFixedBytes(off, n % 0x1_0000_0000)])
      else
        var sub :- Compile(e);
        Success([OpFixedArray(off, n % 0x1_0000_0000, Size(e), sub)])
    case Slice(e) =>
      if IsByteKind(e) then Success([OpByteSlice(off, IsByte(e))])
      else
        var sub :- Compile(e);
        Success([OpSlice(off, Size(e), sub)])
    case Pointer(e) =>
      var sub :- Compile(e);
      Success([OpPointer(off, Size(e), sub)])
    case Struct(fields, _) => EmitFields(t, |fields|, off)
    case Interface => Failure(UnsupportedType)
    case Other(_) => Failure(UnsupportedType)
  }

  function EmitFields(t: GoType, n: nat, off: nat): (r: Result<seq<Op>>)
    requires t.Struct? && n <= |t.fields|
    decreases t, 1, n
  {
    if n == 0 then Success([])
    else
      var ops :- EmitFields(t, n - 1, off);
      var f := t.fields[n - 1];
      if IsDecoded(f) then
        var more :- Emit(f.typ, off + f.offset);
        Success(ops + more)
      else Success(ops)
  }

  /** Compilation succeeds exactly for the supported types. */
  lemma {:induction false} CompilesExactly(t: GoType, off: nat)
    ensures Emit(t, off).Success? <==> Supported(t)
    ensures Emit(t, off).Failure? ==> Emit(t, off).error == UnsupportedType
    decreases t, 2, 0
  {
    match t
    case Array(_, e) => CompilesExactly(e, 0);
    case Slice(e) => CompilesExactly(e, 0);
    case Pointer(e) => CompilesExactly(e, 0);
    case Struct(fields, _) => FieldsCompileExactly(t, |fields|, off);
    case _ =>
  }

  lemma {:induction false} FieldsCompileExactly(t: GoType, n: nat, off: nat)
    requires t.Struct? && n <= |t.fields|
    ensures EmitFields(t, n, off).Success? <==> SupportedFields(t, n)
    ensures EmitFields(t, n, off).Failure? ==> EmitFields(t, n, off).error == UnsupportedType
    decreases t, 1, n
  {
    if n > 0 {
      FieldsCompileExactly(t, n - 1, off);
      CompilesExactly(t.fields[n - 1].typ, off + t.fields[n - 1].offset);
    }
  }

  // ---------------------------------------------------------------- executing

  /** One operation over the object at base: the memory and the cursor after it. */
  function RunOp(o: Op, inp: Input, mem: seq<Cell>, base: nat, pos: nat): (r: Parsed<seq<Cell>>)
    requires pos <= |inp.buf|
    ensures r.Ok? ==> |r.value| == |mem| && pos <= r.pos <= |inp.buf|
    decreases o, 0, 0
  {
    var at := base + o.offset;
    match o
    case OpNum(_, w, s) =>
      var (u, p) :- GetLE(inp.buf, pos, w);
      Ok(Put(mem, at, IntCells(Convert(u, w, s), w)), p)
    case OpBool(_) =>
      var (b, p) :- GetU8(inp.buf, pos);
      if b == 0 then Ok(Put(mem, at, [Raw(0)]), p)
      else if b == 1 then Ok(Put(mem, at, [Raw(1)]), p)
      else Err(InvalidBool)
    case OpFixedBytes(_, count) =>
      var (b, p) :- GetBytes(inp.buf, pos, count);
      Ok(Put(mem, at, Raws(b)), p)
    case OpFixedArray(_, count, elemSize, sub) => RunElems(sub, count, elemSize, inp, mem, at, pos)
    case OpByteSlice(_, exact) =>
      var (n, p) :- GetGuardedLen(inp, pos);
      // reflect.Copy panics unless both element types are identical.
      if n > 0 && !exact then Err(Panicked)
      else Ok(Put(mem, at, Header(24, n, Raws(inp.buf[p..p + n]))), p + n)
    case OpSlice(_, elemSize, sub) =>
      var (n, p) :- GetGuardedLen(inp, pos);
      var (block, q) :- RunElems(sub, n, elemSize, inp, Zeros(n * elemSize), 0, p);
      Ok(Put(mem, at, Header(24, n, block)), q)
    case OpString(_) =>
      var (n, p) :- GetGuardedLen(inp, pos);
      Ok(Put(mem, at, Header(16, n, Raws(inp.buf[p..p + n]))), p + n)
    case OpPointer(_, elemSize, sub) =>
      var (tag, p) :- GetU8(inp.buf, pos);
      if tag == 0 then Ok(Put(mem, at, Zeros(8)), p)
      else if tag == 1 then
        var (block, q) :- RunOps(sub, |sub.ops|, inp, Zeros(elemSize), 0, p);
        Ok(Put(mem, at, Header(8, 1, block)), q)
      else Err(InvalidOptionTag)
    case OpCallIface(_, id, size) =>
      var (image, p) :- CallCustom(id, size, inp, pos);
      Ok(Put(mem, at, image), p)
  }

  /** The first n operations of p over the object at base. */
  function RunOps(p: Plan, n: nat, inp: Input, mem: seq<Cell>, base: nat, pos: nat): (r: Parsed<seq<Cell>>)
    requires n <= |p.ops| && pos <= |inp.buf|
    ensures r.Ok? ==> |r.value| == |mem| && pos <= r.pos <= |inp.buf|
    decreases p, 0, n
  {
    if n == 0 then Ok(mem, pos)
    else
      var (m, q) :- RunOps(p, n - 1, inp, mem, base, pos);
      RunOp(p.ops[n - 1], inp, m, base, q)
  }

  /** The plan over n consecutive elements. */
  function RunElems(p: Plan, n: nat, size: nat, inp: Input, mem: seq<Cell>, at: nat, pos: nat): (r: Parsed<seq<Cell>>)
    requires pos <= |inp.buf|
    ensures r.Ok? ==> |r.value| == |mem| && pos <= r.pos <= |inp.buf|
    decreases p, 1, n
  {
    if n == 0 then Ok(mem, pos)
    else
      var (m, q) :- RunElems(p, n - 1, size, inp, mem, at, pos);
      RunOps(p, |p.ops|, inp, m, at + (n - 1) * size, q)
  }

  lemma {:induction false} RunFails(p: Plan, i: nat, n: nat, inp: Input, mem: seq<Cell>, base: nat, pos: nat)
    requires i <= n <= |p.ops| && pos <= |inp.buf| && RunOps(p, i, inp, mem, base, pos).Err?
    ensures RunOps(p, n, inp, mem, base, pos) == RunOps(p, i, inp, mem, base, pos)
  {
    if i < n {
      RunFails(p, i, n - 1, inp, mem, base, pos);
    }
  }

  // ---------------------------------------------------------------- the recursive decoder over memory

  /** What the recursive decoder does to an object of type t at position at. */
  function Outcome(t: GoType, inp: Input, mem: seq<Cell>, at: nat, pos: nat): (r: Parsed<seq<Cell>>)
    requires pos <= |inp.buf|
    ensures r.Ok? ==> |r.value| == |mem| && pos <= r.pos <= |inp.buf|
  {
    var (v, p) :- Decode(t, inp, pos);
    Ok(Store(t, v, mem, at), p)
  }

  function ElemsOutcome(e: GoType, n: nat, inp: Input, mem: seq<Cell>, at: nat, pos: nat): (r: Parsed<seq<Cell>>)
    requires pos <= |inp.buf|
    ensures r.Ok? ==> |r.value| == |mem| && pos <= r.pos <= |inp.buf|
  {
    var (vs, p) :- DecodeElems(e, n, inp, pos);
    Ok(StoreElems(e, vs, n, mem, at), p)
  }

  function FieldsOutcome(t: GoType, n: nat, inp: Input, mem: seq<Cell>, at: nat, pos: nat): (r: Parsed<seq<Cell>>)
    requires t.Struct? && n <= |t.fields| && pos <= |inp.buf|
    ensures r.Ok? ==> |r.value| == |mem| && pos <= r.pos <= |inp.buf|
  {
    var (vs, p) :- DecodeFields(t, n, inp, pos);
    Ok(StoreFields(t, vs, n, mem, at), p)
  }

  lemma {:induction false} StoreElemsPrefix(e: GoType, vs: seq<Value>, ws: seq<Value>, n: nat, mem: seq<Cell>, at: nat)
    requires n <= |vs| && n <= |ws| && forall i :: 0 <= i < n ==> vs[i] == ws[i]
    ensures StoreElems(e, vs, n, mem, at) == StoreElems(e, ws, n, mem, at)
  {
    hide Store;
    if n > 0 {
      StoreElemsPrefix(e, vs, ws, n - 1, mem, at);
    }
  }

  lemma {:induction false} StoreFieldsPrefix(t: GoType, vs: seq<Value>, ws: seq<Value>, n: nat, mem: seq<Cell>, at: nat)
    requires t.Struct? && n <= |t.fields| && n <= |vs| && n <= |ws| && forall i :: 0 <= i < n ==> vs[i] == ws[i]
    ensures StoreFields(t, vs, n, mem, at) == StoreFields(t, ws, n, mem, at)
  {
    hide Store;
    if n > 0 {
      StoreFieldsPrefix(t, vs, ws, n - 1, mem, at);
    }
  }

  lemma ElemsOutcomeStep(e: GoType, n: nat, inp: Input, mem: seq<Cell>, at: nat, pos: nat)
    requires n > 0 && pos <= |inp.buf|
    ensures match ElemsOutcome(e, n - 1, inp, mem, at, pos)
            case Ok(m, q) =>
              q <= |inp.buf|
              && ElemsOutcome(e, n, inp, mem, at, pos) == Outcome(e, inp, m, at + (n - 1) * Size(e), q)
            case Err(_) => ElemsOutcome(e, n, inp, mem, at, pos) == ElemsOutcome(e, n - 1, inp, mem, at, pos)
  {
    hide Store, Decode;
    if DecodeElems(e, n, inp, pos).Ok? {
      StoreElemsPrefix(e, DecodeElems(e, n - 1, inp, pos).value, DecodeElems(e, n, inp, pos).value, n - 1, mem, at);
    }
  }

  lemma FieldsOutcomeStep(t: GoType, n: nat, inp: Input, mem: seq<Cell>, at: nat, pos: nat)
    requires t.Struct? && 0 < n <= |t.fields| && pos <= |inp.buf|
    ensures var f := t.fields[n - 1];
            match FieldsOutcome(t, n - 1, inp, mem, at, pos)
            case Ok(m, q) =>
              q <= |inp.buf|
              && FieldsOutcome(t, n, inp, mem, at, pos) ==
                 if IsDecoded(f) then Outcome(f.typ, inp, m, at + f.offset, q) else Ok(m, q)
            case Err(_) => FieldsOutcome(t, n, inp, mem, at, pos) == FieldsOutcome(t, n - 1, inp, mem, at, pos)
  {
    hide Store, Decode;
    if DecodeFields(t, n, inp, pos).Ok? {
      StoreFieldsPrefix(t, DecodeFields(t, n - 1, inp, pos).value, DecodeFields(t, n, inp, pos).value, n - 1, mem, at);
    }
  }

  /** Byte by byte, n unsigned bytes read and stored are n bytes copied. */
  lemma {:induction false} BytesRefine(d: bool, n: nat, inp: Input, mem: seq<Cell>, at: nat, pos: nat)
    requires pos <= |inp.buf|
    ensures ElemsOutcome(Num(1, false, d), n, inp, mem, at, pos) ==
            match GetBytes(inp.buf, pos, n)
            case Ok(b, p) => Ok(Put(mem, at, Raws(b)), p)
            case Err(e) => Err(e)
  {
    var byteType := Num(1, false, d);
    if n == 0 {
      assert Put(mem, at, Raws([])) == mem;
    } else {
      BytesRefine(d, n - 1, inp, mem, at, pos);
      ElemsOutcomeStep(byteType, n, inp, mem, at, pos);
      if pos + n <= |inp.buf| {
        ByteRefines(d, inp, Put(mem, at, Raws(inp.buf[pos..pos + n - 1])), at + n - 1, pos + n - 1);
        PutOneMore(mem, at, inp.buf[pos..pos + n]);
        assert inp.buf[pos..pos + n][..n - 1] == inp.buf[pos..pos + n - 1];
      }
    }
  }

  lemma ByteRefines(d: bool, inp: Input, mem: seq<Cell>, at: nat, pos: nat)
    requires pos < |inp.buf|
    ensures Outcome(Num(1, false, d), inp, mem, at, pos) == Ok(Put(mem, at, [Raw(inp.buf[pos])]), pos + 1)
  {
    var w := inp.buf[pos..pos + 1];
    assert w[1..] == [];
    assert LEValue(w) == w[0];
    assert LE(w[0], 1) == [w[0]] + LE(w[0] / 256, 0);
    assert Raws(LE(w[0], 1)) == [Raw(w[0])];
  }

  lemma PutOneMore(mem: seq<Cell>, at: nat, b: seq<byte>)
    requires |b| > 0
    ensures Put(Put(mem, at, Raws(b[..|b| - 1])), at + |b| - 1, [Raw(b[|b| - 1])]) == Put(mem, at, Raws(b))
  {
  }

  // ---------------------------------------------------------------- what plans decode

  /**
   What plans do to an object of type t, said without plans: as the recursive decoder, except that
   array lengths are truncated to 32 bits, that elements of kind uint8 are copied as bytes, and that
   doing so in a slice panics unless they are predeclared bytes or there are none.
   */
  function Planned(t: GoType, inp: Input, mem: seq<Cell>, at: nat, pos: nat): (r: Parsed<seq<Cell>>)
    requires pos <= |inp.buf|
    ensures r.Ok? ==> |r.value| == |mem| && pos <= r.pos <= |inp.buf|
    decreases t, 2, 0
  {
    match t
    case Array(n, e) =>
      if IsByteKind(e) then
        var (b, p) :- GetBytes(inp.buf, pos, n % 0x1_0000_0000);
        Ok(Put(mem, at, Raws(b)), p)
      else PlannedElems(e, n % 0x1_0000_0000, inp, mem, at, pos)
    case Slice(e) =>
      var (n, p) :- GetGuardedLen(inp, pos);
      if IsByteKind(e) then
        if n > 0 && !IsByte(e) then Err(Panicked)
        else Ok(Put(mem, at, Header(24, n, Raws(inp.buf[p..p + n]))), p + n)
      else
        var (block, q) :- PlannedElems(e, n, inp, Zeros(n * Size(e)), 0, p);
        Ok(Put(mem, at, Header(24, n, block)), q)
    case Pointer(e) =>
      var (tag, p) :- GetU8(inp.buf, pos);
      if tag == 0 then Ok(Put(mem, at, Zeros(8)), p)
      else if tag == 1 then
        var (block, q) :- Planned(e, inp, Zeros(Size(e)), 0, p);
        Ok(Put(mem, at, Header(8, 1, block)), q)
      else Err(InvalidOptionTag)
    case Struct(fields, _) => PlannedFields(t, |fields|, inp, mem, at, pos)
    case _ => Outcome(t, inp, mem, at, pos)
  }

  function PlannedElems(e: GoType, n: nat, inp: Input, mem: seq<Cell>, at: nat, pos: nat): (r: Parsed<seq<Cell>>)
    requires pos <= |inp.buf|
    ensures r.Ok? ==> |r.value| == |mem| && pos <= r.pos <= |inp.buf|
    decreases e, 3, n
  {
    if n == 0 then Ok(mem, pos)
    else
      var (m, q) :- PlannedElems(e, n - 1, inp, mem, at, pos);
      Planned(e, inp, m, at + (n - 1) * Size(e), q)
  }

  function PlannedFields(t: GoType, n: nat, inp: Input, mem: seq<Cell>, at: nat, pos: nat): (r: Parsed<seq<Cell>>)
    requires t.Struct? && n <= |t.fields| && pos <= |inp.buf|
    ensures r.Ok? ==> |r.value| == |mem| && pos <= r.pos <= |inp.buf|
    decreases t, 1, n
  {
    if n == 0 then Ok(mem, pos)
    else
      var (m, q) :- PlannedFields(t, n - 1, inp, mem, at, pos);
      if IsDecoded(t.fields[n - 1]) then Planned(t.fields[n - 1].typ, inp, m, at + t.fields[n - 1].offset, q)
      else Ok(m, q)
  }

  // ---------------------------------------------------------------- flattening

  lemma LeafOpPlanned(t: GoType, off: nat, inp: Input, mem: seq<Cell>, base: nat, pos: nat)
    requires t.Num? || t.Bool? || t.Str? || t.Custom?
    requires pos <= |inp.buf|
    ensures RunOp(Emit(t, off).value[0], inp, mem, base, pos) == Planned(t, inp, mem, base + off, pos)
  {
    hide GetGuardedLen, Put, Header, Convert, LEValue, Pow256;
  }

  lemma ByteOpsPlanned(n: nat, e: GoType, off: nat, inp: Input, mem: seq<Cell>, base: nat, pos: nat)
    requires IsByteKind(e) && pos <= |inp.buf|
    ensures RunOp(OpFixedBytes(off, n % 0x1_0000_0000), inp, mem, base, pos) ==
            Planned(Array(n, e), inp, mem, base + off, pos)
    ensures RunOp(OpByteSlice(off, IsByte(e)), inp, mem, base, pos) == Planned(Slice(e), inp, mem, base + off, pos)
  {
    hide GetGuardedLen, Put, Header;
  }

  lemma ArrayOpPlanned(n: nat, e: GoType, off: nat, sub: Plan, inp: Input, mem: seq<Cell>, base: nat, pos: nat)
    requires !IsByteKind(e) && pos <= |inp.buf|
    requires var k := n % 0x1_0000_0000;
             RunElems(sub, k, Size(e), inp, mem, base + off, pos) == PlannedElems(e, k, inp, mem, base + off, pos)
    ensures RunOp(OpFixedArray(off, n % 0x1_0000_0000, Size(e), sub), inp, mem, base, pos) ==
            Planned(Array(n, e), inp, mem, base + off, pos)
  {
    hide RunElems, PlannedElems;
  }

  lemma SliceOpPlanned(e: GoType, off: nat, sub: Plan, inp: Input, mem: seq<Cell>, base: nat, pos: nat)
    requires !IsByteKind(e) && pos <= |inp.buf|
    requires GetGuardedLen(inp, pos).Ok? ==>
               var Ok(n, p) := GetGuardedLen(inp, pos);
               RunElems(sub, n, Size(e), inp, Zeros(n * Size(e)), 0, p) ==
               PlannedElems(e, n, inp, Zeros(n * Size(e)), 0, p)
    ensures RunOp(OpSlice(off, Size(e), sub), inp, mem, base, pos) == Planned(Slice(e), inp, mem, base + off, pos)
  {
    hide GetGuardedLen, RunElems, PlannedElems, Put, Header, Zeros;
  }

  lemma PointerOpPlanned(e: GoType, off: nat, sub: Plan, inp: Input, mem: seq<Cell>, base: nat, pos: nat)
    requires pos <= |inp.buf|
    requires pos < |inp.buf| ==>
               RunOps(sub, |sub.ops|, inp, Zeros(Size(e)), 0, pos + 1) == Planned(e, inp, Zeros(Size(e)), 0, pos + 1)
    ensures RunOp(OpPointer(off, Size(e), sub), inp, mem, base, pos) == Planned(Pointer(e), inp, mem, base + off, pos)
  {
    hide RunOps, Put, Header, Zeros;
  }

  /** The one operation emitted for any type but a struct. */
  lemma {:induction false} OpPlanned(t: GoType, off: nat, inp: Input, mem: seq<Cell>, base: nat, pos: nat)
    requires !t.Struct? && Emit(t, off).Success? && pos <= |inp.buf|
    ensures |Emit(t, off).value| == 1
    ensures RunOp(Emit(t, off).value[0], inp, mem, base, pos) == Planned(t, inp, mem, base + off, pos)
    decreases t, 2, 0
  {
    hide RunOp, Planned, RunElems, PlannedElems, RunOps, GetGuardedLen, Zeros;
    match t
    case Array(n, e) =>
      if IsByteKind(e) {
        ByteOpsPlanned(n, e, off, inp, mem, base, pos);
      } else {
        ElemsPlanned(e, n % 0x1_0000_0000, inp, mem, base + off, pos);
        ArrayOpPlanned(n, e, off, Compile(e).value, inp, mem, base, pos);
      }
    case Slice(e) =>
      if IsByteKind(e) {
        ByteOpsPlanned(0, e, off, inp, mem, base, pos);
      } else {
        if GetGuardedLen(inp, pos).Ok? {
          var Ok(n, p) := GetGuardedLen(inp, pos);
          ElemsPlanned(e, n, inp, Zeros(n * Size(e)), 0, p);
        }
        SliceOpPlanned(e, off, Compile(e).value, inp, mem, base, pos);
      }
    case Pointer(e) =>
      if pos < |inp.buf| {
        PlanPlanned(e, inp, Zeros(Size(e)), 0, pos + 1);
      }
      PointerOpPlanned(e, off, Compile(e).value, inp, mem, base, pos);
    case _ =>
      LeafOpPlanned(t, off, inp, mem, base, pos);
  }

  lemma {:induction false} ElemsPlanned(e: GoType, n: nat, inp: Input, mem: seq<Cell>, at: nat, pos: nat)
    requires Compile(e).Success? && pos <= |inp.buf|
    ensures RunElems(Compile(e).value, n, Size(e), inp, mem, at, pos) == PlannedElems(e, n, inp, mem, at, pos)
    decreases e, 4, n
  {
    hide RunOps, Planned, Compile;
    if n > 0 {
      ElemsPlanned(e, n - 1, inp, mem, at, pos);
      var before := PlannedElems(e, n - 1, inp, mem, at, pos);
      if before.Ok? {
        PlanPlanned(e, inp, before.value, at + (n - 1) * Size(e), before.pos);
      }
    }
  }

  lemma StructPlanned(t: GoType, off: nat, inp: Input, mem: seq<Cell>, at: nat, pos: nat)
    requires t.Struct? && pos <= |inp.buf|
    ensures Emit(t, off) == EmitFields(t, |t.fields|, off)
    ensures Planned(t, inp, mem, at, pos) == PlannedFields(t, |t.fields|, inp, mem, at, pos)
  {
    hide PlannedFields, EmitFields;
  }

  /** The operations that p holds from position i on for a t at offset off. */
  lemma {:induction false} SegmentPlanned(t: GoType, off: nat, p: Plan, i: nat, inp: Input, mem: seq<Cell>, base: nat,
                                          pos: nat, m: seq<Cell>, q: nat)
    requires Emit(t, off).Success? && pos <= |inp.buf| && q <= |inp.buf|
    requires i + |Emit(t, off).value| <= |p.ops| && p.ops[i..i + |Emit(t, off).value|] == Emit(t, off).value
    requires RunOps(p, i, inp, mem, base, pos) == Ok(m, q)
    ensures RunOps(p, i + |Emit(t, off).value|, inp, mem, base, pos) == Planned(t, inp, m, base + off, q)
    decreases t, 2, 1
  {
    hide RunOp, Planned, PlannedFields, Emit, EmitFields;
    if t.Struct? {
      StructPlanned(t, off, inp, m, base + off, q);
      FieldsPlanned(t, |t.fields|, off, p, i, inp, mem, base, pos, m, q);
    } else {
      OpPlanned(t, off, inp, m, base, q);
      assert p.ops[i] == p.ops[i..i + 1][0];
    }
  }

  lemma SliceOfSlice(xs: seq<Op>, i: nat, k: nat, n: nat)
    requires k <= n && i + n <= |xs|
    ensures xs[i..i + k] == xs[i..i + n][..k] && xs[i + k..i + n] == xs[i..i + n][k..]
  {
  }

  /** Struct fields are flattened into the enclosing plan. */
  lemma {:induction false} FieldsPlanned(t: GoType, n: nat, off: nat, p: Plan, i: nat, inp: Input, mem: seq<Cell>,
                                         base: nat, pos: nat, m: seq<Cell>, q: nat)
    requires t.Struct? && n <= |t.fields| && EmitFields(t, n, off).Success?
    requires pos <= |inp.buf| && q <= |inp.buf|
    requires i + |EmitFields(t, n, off).value| <= |p.ops|
    requires p.ops[i..i + |EmitFields(t, n, off).value|] == EmitFields(t, n, off).value
    requires RunOps(p, i, inp, mem, base, pos) == Ok(m, q)
    ensures RunOps(p, i + |EmitFields(t, n, off).value|, inp, mem, base, pos) ==
            PlannedFields(t, n, inp, m, base + off, q)
    decreases t, 1, n
  {
    hide RunOps, Emit, Planned;
    if n > 0 {
      var f := t.fields[n - 1];
      var ops, front := EmitFields(t, n, off).value, EmitFields(t, n - 1, off).value;
      SliceOfSlice(p.ops, i, |front|, |ops|);
      assert ops[..|front|] == front;
      FieldsPlanned(t, n - 1, off, p, i, inp, mem, base, pos, m, q);
      if IsDecoded(f) {
        FieldPlanned(f, off, p, i + |front|, i + |ops|, inp, mem, base, pos) by {
          assert ops[|front|..] == Emit(f.typ, off + f.offset).value;
        }
      }
    }
  }

  lemma {:induction false} FieldPlanned(f: Field, off: nat, p: Plan, i: nat, j: nat, inp: Input, mem: seq<Cell>,
                                        base: nat, pos: nat)
    requires Emit(f.typ, off + f.offset).Success? && pos <= |inp.buf|
    requires i <= j <= |p.ops| && p.ops[i..j] == Emit(f.typ, off + f.offset).value
    ensures match RunOps(p, i, inp, mem, base, pos)
            case Ok(m, q) => RunOps(p, j, inp, mem, base, pos) == Planned(f.typ, inp, m, base + off + f.offset, q)
            case Err(e) => RunOps(p, j, inp, mem, base, pos) == Err(e)
    decreases f, 3, 0
  {
    hide Emit, Planned;
    if RunOps(p, i, inp, mem, base, pos).Ok? {
      var Ok(m, q) := RunOps(p, i, inp, mem, base, pos);
      SegmentPlanned(f.typ, off + f.offset, p, i, inp, mem, base, pos, m, q);
    } else {
      RunFails(p, i, j, inp, mem, base, pos);
    }
  }

  /** Flattening preserves meaning: the plan of every type that compiles does exactly what Planned says. */
  lemma {:induction false} PlanPlanned(t: GoType, inp: Input, mem: seq<Cell>, base: nat, pos: nat)
    requires Compile(t).Success? && pos <= |inp.buf|
    ensures var p := Compile(t).value;
            RunOps(p, |p.ops|, inp, mem, base, pos) == Planned(t, inp, mem, base, pos)
    decreases t, 3, 0
  {
    var p := Compile(t).value;
    assert p.ops[0..|p.ops|] == p.ops;
    hide Planned, Emit;
    SegmentPlanned(t, 0, p, 0, inp, mem, base, pos, mem, pos);
  }
}

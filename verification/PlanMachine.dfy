/**
 The plan compiler and executor as they run: a plan under construction grows its list of
 operations, and execution writes through offsets into an object and advances the decoder.
 */
module PlanMachine {
  import opened Wire
  import opened Bincode
  import opened GoTypes
  import opened Reflection
  import opened DecodePlan
  import opened PlanTheorems

  // ---------------------------------------------------------------- the compiler

  class PlanBuilder {
    var ops: seq<Op>

    constructor ()
      ensures ops == []
    {
      ops := [];
    }

    /** Appends the operations for a t at offset off. */
    method EmitValue(t: GoType, off: nat) returns (err: Option<Error>)
      modifies this
      ensures match Emit(t, off)
              case Success(more) => err == None && ops == old(ops) + more
              case Failure(e) => err == Some(e)
      decreases t, 2, 0
    {
      err := None;
      match t {
        case Custom(id, _, _) => ops := ops + [OpCallIface(off, id, Size(t))];
        case Num(w, s, _) => ops := ops + [OpNum(off, w, s)];
        case Bool => ops := ops + [OpBool(off)];
        case Str => ops := ops + [OpString(off)];
        case Array(n, e) =>
          if IsByteKind(e) {
            ops := ops + [OpFixedBytes(off, n % 0x1_0000_0000)];
            return;
          }
          var sub := CompileDecodePlan(e);
          if sub.Failure? {
            return Some(sub.error);
          }
          ops := ops + [OpFixedArray(off, n % 0x1_0000_0000, Size(e), sub.value)];
        case Slice(e) =>
          if IsByteKind(e) {
            ops := ops + [OpByteSlice(off, IsByte(e))];
            return;
          }
          var sub := CompileDecodePlan(e);
          if sub.Failure? {
            return Some(sub.error);
          }
          ops := ops + [OpSlice(off, Size(e), sub.value)];
        case Pointer(e) =>
          var sub := CompileDecodePlan(e);
          if sub.Failure? {
            return Some(sub.error);
          }
          ops := ops + [OpPointer(off, Size(e), sub.value)];
        case Struct(fields, _) => err := EmitStruct(t, off);
        case Interface => err := Some(UnsupportedType);
        case Other(_) => err := Some(UnsupportedType);
      }
    }

    /** Appends the operations of the exported fields that are not tagged to be skipped. */
    method EmitStruct(t: GoType, off: nat) returns (err: Option<Error>)
      requires t.Struct?
      modifies this
      ensures match EmitFields(t, |t.fields|, off)
              case Success(more) => err == None && ops == old(ops) + more
              case Failure(e) => err == Some(e)
      decreases t, 1, 0
    {
      hide Emit;
      assert EmitFields(t, 0, off) == Success([]);
      assert ops == old(ops) + [];
      for i := 0 to |t.fields|
        invariant EmitFields(t, i, off).Success? && ops == old(ops) + EmitFields(t, i, off).value
      {
        var f := t.fields[i];
        if IsDecoded(f) {
          err := EmitValue(f.typ, off + f.offset);
          if err.Some? {
            EmitFieldsFails(t, i + 1, |t.fields|, off);
            return;
          }
        }
      }
      err := None;
    }
  }

  lemma {:induction false} EmitFieldsFails(t: GoType, i: nat, n: nat, off: nat)
    requires t.Struct? && i <= n <= |t.fields| && EmitFields(t, i, off).Failure?
    ensures EmitFields(t, n, off) == EmitFields(t, i, off)
  {
    if i < n {
      EmitFieldsFails(t, i, n - 1, off);
    }
  }

  method CompileDecodePlan(t: GoType) returns (r: Result<Plan>)
    ensures r == Compile(t)
    decreases t, 3, 0
  {
    var p := new PlanBuilder();
    var err := p.EmitValue(t, 0);
    if err.Some? {
      return Failure(err.value);
    }
    assert p.ops == Emit(t, 0).value;
    return Success(Plan(p.ops, Size(t)));
  }

  // ---------------------------------------------------------------- memory safety of plans

  /** How many cells the operation may write at its offset. */
  function Extent(o: Op): (r: nat) {
    match o
    case OpNum(_, w, _) => w
    case OpBool(_) => 1
    case OpFixedBytes(_, count) => count
    case OpFixedArray(_, count, elemSize, _) => count * elemSize
    case OpByteSlice(_, _) => 24
    case OpSlice(_, _, _) => 24
    case OpString(_) => 16
    case OpPointer(_, _, _) => 8
    case OpCallIface(_, _, size) => size
  }

  /** Sub-plans stay inside an element. */
  ghost predicate SafeSub(o: Op)
    decreases o, 0
  {
    match o
    case OpFixedArray(_, _, elemSize, sub) => sub.size == elemSize && SafePlan(sub)
    case OpSlice(_, elemSize, sub) => sub.size == elemSize && SafePlan(sub)
    case OpPointer(_, elemSize, sub) => sub.size == elemSize && SafePlan(sub)
    case _ => true
  }

  /** Every write of the plan stays inside its object, at every level. */
  ghost predicate SafePlan(p: Plan)
    decreases p, 1
  {
    forall i :: 0 <= i < |p.ops| ==> SafeSub(p.ops[i]) && p.ops[i].offset + Extent(p.ops[i]) <= p.size
  }

  ghost predicate SafeOps(ops: seq<Op>, limit: nat) {
    forall i :: 0 <= i < |ops| ==> SafeSub(ops[i]) && ops[i].offset + Extent(ops[i]) <= limit
  }

  lemma TimesMonotone(a: nat, b: nat, size: nat)
    requires a <= b
    ensures a * size <= b * size
  {
  }

  /** Plans of well laid-out types never write outside the object. */
  lemma {:induction false} PlansAreSafe(t: GoType)
    requires WellLaid(t) && Compile(t).Success?
    ensures SafePlan(Compile(t).value) && Compile(t).value.size == Size(t)
    decreases t, 3, 0
  {
    EmitsSafely(t, 0);
  }

  lemma {:induction false} EmitsSafely(t: GoType, off: nat)
    requires WellLaid(t) && Emit(t, off).Success?
    ensures SafeOps(Emit(t, off).value, off + Size(t))
    decreases t, 2, 0
  {
    hide SafePlan;
    match t
    case Array(n, e) =>
      if IsByteKind(e) {
        assert n * Size(e) == n;
      } else {
        PlansAreSafe(e);
        TimesMonotone(n % 0x1_0000_0000, n, Size(e));
      }
    case Slice(e) =>
      if !IsByteKind(e) {
        PlansAreSafe(e);
      }
    case Pointer(e) => PlansAreSafe(e);
    case Struct(fields, _) => EmitsFieldsSafely(t, |fields|, off);
    case _ =>
  }

  lemma {:induction false} EmitsFieldsSafely(t: GoType, n: nat, off: nat)
    requires t.Struct? && n <= |t.fields| && WellLaid(t) && EmitFields(t, n, off).Success?
    ensures SafeOps(EmitFields(t, n, off).value, off + t.size)
    decreases t, 1, n
  {
    hide Emit, SafeSub;
    if n > 0 {
      EmitsFieldsSafely(t, n - 1, off);
      var f := t.fields[n - 1];
      if IsDecoded(f) {
        EmitsSafely(f.typ, off + f.offset);
      }
    }
  }

  // ---------------------------------------------------------------- the executor

  /** The run r of the specification is what the machine did. */
  ghost predicate Did(r: Parsed<seq<Cell>>, err: Option<Error>, mem: seq<Cell>, pos: nat) {
    match r
    case Ok(m, q) => err == None && mem == m && pos == q
    case Err(e) => err == Some(e)
  }

  method Write(mem: array<Cell>, at: nat, cells: seq<Cell>)
    requires at + |cells| <= mem.Length
    modifies mem
    ensures mem[..] == Put(old(mem[..]), at, cells)
  {
    for i := 0 to |cells|
      invariant forall k :: 0 <= k < mem.Length ==>
                  mem[k] == if at <= k < at + i then cells[k - at] else old(mem[k])
    {
      mem[at + i] := cells[i];
    }
  }

  /** readLen and the guard that every length prefix is checked with. */
  method ReadGuardedLen(d: Decoder, ghost inp: Input) returns (r: Result<nat>)
    requires d.Valid() && inp.buf == d.buf && inp.borsh == d.borsh
    modifies d`pos
    ensures d.Valid() && d.Yields(GetGuardedLen(inp, old(d.pos)), r)
  {
    Pow256Widths();
    var n: nat;
    if d.borsh {
      var v :- d.ReadUint32();
      n := v;
    } else {
      var v :- d.ReadUint64();
      n := v;
    }
    if n > d.Remaining() {
      return Failure(LengthExceedsInput);
    }
    return Success(n);
  }

  method ExecDecodePlan(d: Decoder, customs: Unmarshalers, p: Plan, mem: array<Cell>, base: nat)
    returns (err: Option<Error>)
    requires d.Valid() && SafePlan(p) && base + p.size <= mem.Length
    modifies d`pos, mem
    ensures d.Valid()
    ensures Did(RunOps(p, |p.ops|, Input(d.buf, d.borsh, customs), old(mem[..]), base, old(d.pos)), err, mem[..], d.pos)
    decreases p, 1, 0
  {
    hide RunOp, SafeSub;
    ghost var inp := Input(d.buf, d.borsh, customs);
    for i := 0 to |p.ops|
      invariant d.Valid() && RunOps(p, i, inp, old(mem[..]), base, old(d.pos)) == Ok(mem[..], d.pos)
    {
      err := ExecDecodeOp(d, customs, p.ops[i], mem, base);
      if err.Some? {
        RunFails(p, i + 1, |p.ops|, inp, old(mem[..]), base, old(d.pos));
        return;
      }
    }
    err := None;
  }

  lemma {:induction false} RunElemsFails(p: Plan, i: nat, n: nat, size: nat, inp: Input, mem: seq<Cell>, at: nat,
                                         pos: nat)
    requires i <= n && pos <= |inp.buf| && RunElems(p, i, size, inp, mem, at, pos).Err?
    ensures RunElems(p, n, size, inp, mem, at, pos) == RunElems(p, i, size, inp, mem, at, pos)
  {
    if i < n {
      RunElemsFails(p, i, n - 1, size, inp, mem, at, pos);
    }
  }

  lemma ElemInside(i: nat, n: nat, size: nat)
    requires i < n
    ensures i * size + size <= n * size
  {
    TimesMonotone(i + 1, n, size);
    assert (i + 1) * size == i * size + size;
  }

  method ExecElems(d: Decoder, customs: Unmarshalers, p: Plan, n: nat, mem: array<Cell>, at: nat)
    returns (err: Option<Error>)
    requires d.Valid() && SafePlan(p) && at + n * p.size <= mem.Length
    modifies d`pos, mem
    ensures d.Valid()
    ensures Did(RunElems(p, n, p.size, Input(d.buf, d.borsh, customs), old(mem[..]), at, old(d.pos)), err, mem[..],
                d.pos)
    decreases p, 2, 0
  {
    hide SafePlan, RunOps;
    ghost var inp := Input(d.buf, d.borsh, customs);
    for i := 0 to n
      invariant d.Valid() && RunElems(p, i, p.size, inp, old(mem[..]), at, old(d.pos)) == Ok(mem[..], d.pos)
    {
      ElemInside(i, n, p.size);
      err := ExecDecodePlan(d, customs, p, mem, at + i * p.size);
      if err.Some? {
        RunElemsFails(p, i + 1, n, p.size, inp, old(mem[..]), at, old(d.pos));
        return;
      }
    }
    err := None;
  }

  method ExecNum(d: Decoder, w: Width, signed: bool, mem: array<Cell>, at: nat, ghost inp: Input)
    returns (err: Option<Error>)
    requires d.Valid() && inp.buf == d.buf && at + w <= mem.Length
    modifies d`pos, mem
    ensures d.Valid()
    ensures Did(RunOp(OpNum(at, w, signed), inp, old(mem[..]), 0, old(d.pos)), err, mem[..], d.pos)
  {
    Pow256Widths();
    var u: nat;
    if w == 1 {
      ghost var one := d.buf[d.pos..if d.pos < |d.buf| then d.pos + 1 else d.pos];
      assert d.pos < |d.buf| ==> LEValue(one) == one[0] as int + 256 * LEValue(one[1..]) && one[1..] == [];
      var r := d.ReadUint8();
      if r.Failure? {
        return Some(r.error);
      }
      u := r.value;
    } else if w == 2 {
      var r := d.ReadUint16();
      if r.Failure? {
        return Some(r.error);
      }
      u := r.value;
    } else if w == 4 {
      var r := d.ReadUint32();
      if r.Failure? {
        return Some(r.error);
      }
      u := r.value;
    } else {
      var r := d.ReadUint64();
      if r.Failure? {
        return Some(r.error);
      }
      u := r.value;
    }
    Write(mem, at, IntCells(Convert(u, w, signed), w));
    err := None;
  }

  method ExecDecodeOp(d: Decoder, customs: Unmarshalers, o: Op, mem: array<Cell>, base: nat)
    returns (err: Option<Error>)
    requires d.Valid() && SafeSub(o) && base + o.offset + Extent(o) <= mem.Length
    modifies d`pos, mem
    ensures d.Valid()
    ensures Did(RunOp(o, Input(d.buf, d.borsh, customs), old(mem[..]), base, old(d.pos)), err, mem[..], d.pos)
    decreases o, 1, 0
  {
    hide GetGuardedLen, RunOps, RunElems, LEValue, Pow256, Put, Convert, SafePlan, CallCustom;
    ghost var inp := Input(d.buf, d.borsh, customs);
    var at := base + o.offset;
    err := None;
    match o {
      case OpNum(_, w, s) =>
        err := ExecNum(d, w, s, mem, at, inp);
      case OpBool(_) =>
        var b := d.ReadUint8();
        if b.Failure? {
          return Some(b.error);
        }
        if b.value == 0 {
          Write(mem, at, [Raw(0)]);
        } else if b.value == 1 {
          Write(mem, at, [Raw(1)]);
        } else {
          err := Some(InvalidBool);
        }
      case OpFixedBytes(_, count) =>
        var b := d.ReadBytes(count);
        if b.Failure? {
          return Some(b.error);
        }
        Write(mem, at, Raws(b.value));
      case OpFixedArray(_, count, _, sub) =>
        err := ExecElems(d, customs, sub, count, mem, at);
      case OpByteSlice(_, exact) =>
        err := ExecByteSlice(d, exact, mem, at, inp);
      case OpSlice(_, _, sub) =>
        err := ExecSlice(d, customs, o, mem, base);
      case OpString(_) =>
        err := ExecBytes(d, 16, mem, at, inp);
      case OpPointer(_, _, sub) =>
        err := ExecPointer(d, customs, o, mem, base);
      case OpCallIface(_, id, size) =>
        match CallCustom(id, size, Input(d.buf, d.borsh, customs), d.pos) {
          case Ok(image, p) =>
            d.pos := p;
            Write(mem, at, image);
          case Err(e) => err := Some(e);
        }
    }
  }

  /** Reads a length-prefixed byte string into a fresh block behind a header of the given size. */
  method ExecBytes(d: Decoder, size: nat, mem: array<Cell>, at: nat, ghost inp: Input) returns (err: Option<Error>)
    requires d.Valid() && inp.buf == d.buf && inp.borsh == d.borsh && at + size <= mem.Length
    modifies d`pos, mem
    ensures d.Valid()
    ensures match GetGuardedLen(inp, old(d.pos))
            case Ok(n, p) =>
              err == None && d.pos == p + n
              && mem[..] == Put(old(mem[..]), at, Header(size, n, Raws(inp.buf[p..p + n])))
            case Err(e) => err == Some(e)
  {
    hide GetGuardedLen, Put, Header;
    var n := ReadGuardedLen(d, inp);
    if n.Failure? {
      return Some(n.error);
    }
    var b := d.ReadBytes(n.value);
    Write(mem, at, Header(size, n.value, Raws(b.value)));
    err := None;
  }

  /**
   Reads a byte slice. When its elements are not predeclared bytes the copy panics, unless there is
   nothing to copy.
   */
  method ExecByteSlice(d: Decoder, exact: bool, mem: array<Cell>, at: nat, ghost inp: Input)
    returns (err: Option<Error>)
    requires d.Valid() && inp.buf == d.buf && inp.borsh == d.borsh && at + 24 <= mem.Length
    modifies d`pos, mem
    ensures d.Valid()
    ensures match GetGuardedLen(inp, old(d.pos))
            case Ok(n, p) =>
              if n > 0 && !exact then err == Some(Panicked)
              else
                err == None && d.pos == p + n
                && mem[..] == Put(old(mem[..]), at, Header(24, n, Raws(inp.buf[p..p + n])))
            case Err(e) => err == Some(e)
  {
    hide GetGuardedLen, Put, Header;
    var n := ReadGuardedLen(d, inp);
    if n.Failure? {
      return Some(n.error);
    }
    var b := d.ReadBytes(n.value);
    if n.value > 0 && !exact {
      return Some(Panicked);
    }
    Write(mem, at, Header(24, n.value, Raws(b.value)));
    err := None;
  }

  method ExecSlice(d: Decoder, customs: Unmarshalers, o: Op, mem: array<Cell>, base: nat) returns (err: Option<Error>)
    requires o.OpSlice? && d.Valid() && SafeSub(o) && base + o.offset + 24 <= mem.Length
    modifies d`pos, mem
    ensures d.Valid()
    ensures Did(RunOp(o, Input(d.buf, d.borsh, customs), old(mem[..]), base, old(d.pos)), err, mem[..], d.pos)
    decreases o, 0, 0
  {
    hide GetGuardedLen, RunElems, Put, Header, SafePlan;
    ghost var inp := Input(d.buf, d.borsh, customs);
    var n := ReadGuardedLen(d, inp);
    if n.Failure? {
      return Some(n.error);
    }
    var block := new Cell[n.value * o.elemSize](_ => Raw(0));
    assert block[..] == Zeros(n.value * o.elemSize);
    err := ExecElems(d, customs, o.sub, n.value, block, 0);
    if err.None? {
      Write(mem, base + o.offset, Header(24, n.value, block[..]));
    }
  }

  method ExecPointer(d: Decoder, customs: Unmarshalers, o: Op, mem: array<Cell>, base: nat) returns (err: Option<Error>)
    requires o.OpPointer? && d.Valid() && SafeSub(o) && base + o.offset + 8 <= mem.Length
    modifies d`pos, mem
    ensures d.Valid()
    ensures Did(RunOp(o, Input(d.buf, d.borsh, customs), old(mem[..]), base, old(d.pos)), err, mem[..], d.pos)
    decreases o, 0, 0
  {
    hide RunOps, Put, Header, SafePlan;
    var tag := d.ReadUint8();
    if tag.Failure? {
      return Some(tag.error);
    }
    if tag.value == 0 {
      Write(mem, base + o.offset, Zeros(8));
      return None;
    }
    if tag.value != 1 {
      return Some(InvalidOptionTag);
    }
    var block := new Cell[o.elemSize](_ => Raw(0));
    assert block[..] == Zeros(o.elemSize);
    err := ExecDecodePlan(d, customs, o.sub, block, 0);
    if err.None? {
      Write(mem, base + o.offset, Header(8, 1, block[..]));
    }
  }

  /**
   Decodes the next value of type t into the object mem: as its plan does, which is as the recursive
   decoder does when the type is exact.
   */
  method DecodeTo(d: Decoder, customs: Unmarshalers, t: GoType, mem: array<Cell>) returns (err: Option<Error>)
    requires d.Valid() && WellLaid(t) && mem.Length == Size(t)
    modifies d`pos, mem
    ensures d.Valid()
    ensures !Supported(t) ==> err == Some(UnsupportedType) && d.pos == old(d.pos) && mem[..] == old(mem[..])
    ensures Supported(t) ==>
              Did(Planned(t, Input(d.buf, d.borsh, customs), old(mem[..]), 0, old(d.pos)), err, mem[..], d.pos)
    ensures Supported(t) && Exact(t) ==>
              Did(Outcome(t, Input(d.buf, d.borsh, customs), old(mem[..]), 0, old(d.pos)), err, mem[..], d.pos)
  {
    hide Exact, RunOps, Outcome, Planned, WellLaid, Emit, SafePlan;
    CompilesExactly(t, 0);
    var p := CompileDecodePlan(t);
    if p.Failure? {
      return Some(p.error);
    }
    PlansAreSafe(t);
    PlanPlanned(t, Input(d.buf, d.borsh, customs), mem[..], 0, d.pos);
    if Exact(t) {
      PlanRefines(t, Input(d.buf, d.borsh, customs), mem[..], 0, d.pos);
    }
    err := ExecDecodePlan(d, customs, p.value, mem, 0);
  }

  /** The same in Borsh mode, from a buffer. */
  method BorshDecodeTo(data: seq<byte>, customs: Unmarshalers, t: GoType, mem: array<Cell>)
    returns (err: Option<Error>, end: nat)
    requires WellLaid(t) && mem.Length == Size(t)
    modifies mem
    ensures !Supported(t) ==> err == Some(UnsupportedType) && end == 0 && mem[..] == old(mem[..])
    ensures Supported(t) ==> Did(Planned(t, Input(data, true, customs), old(mem[..]), 0, 0), err, mem[..], end)
    ensures Supported(t) && Exact(t) ==>
              Did(Outcome(t, Input(data, true, customs), old(mem[..]), 0, 0), err, mem[..], end)
  {
    var d := new Decoder(data);
    d := d.UseBorsh();
    err := DecodeTo(d, customs, t, mem);
    end := d.pos;
  }
}

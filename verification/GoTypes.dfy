/**
 The Go types that the reflective decoder of encoding/decode_plan.go accepts, the values they hold,
 and how values lie in memory: cells at byte offsets, with the blocks behind slices, strings and
 pointers held in the cells of their headers.
 */
module GoTypes {
  import opened Wire

  type Width = w: nat | w == 1 || w == 2 || w == 4 || w == 8 witness 1

  /** skipped stands for the field tag bin:"-". */
  datatype Field = Field(offset: nat, exported: bool, skipped: bool, typ: GoType)

  /**
   defined says that an integer type is a defined one, such as `type Level uint8`, and not predeclared.
   Custom implements Unmarshaler; byteKind says that its underlying kind is uint8. Other stands for
   maps, channels, functions, complex and floating-point kinds.
   */
  datatype GoType =
    | Num(width: Width, signed: bool, defined: bool)
    | Bool
    | Str
    | Array(n: nat, elem: GoType)
    | Slice(elem: GoType)
    | Pointer(elem: GoType)
    | Struct(fields: seq<Field>, size: nat)
    | Custom(id: nat, size: nat, byteKind: bool)
    | Interface
    | Other(size: nat)

  /** A byte of memory: plain data, or byte part of a header that refers to a block of len elements. */
  datatype Cell = Raw(b: byte) | Ref(len: nat, block: seq<Cell>, part: nat)

  datatype Value =
    | Int(i: int)
    | Flag(f: bool)
    | Text(s: seq<byte>)
    | List(vs: seq<Value>)
    | Nothing
    | Just(v: Value)
    | Image(cells: seq<Cell>)
    | Absent

  predicate IsDecoded(f: Field) {
    f.exported && !f.skipped
  }

  function Size(t: GoType): (r: nat) {
    match t
    case Num(w, _, _) => w
    case Bool => 1
    case Str => 16
    case Array(n, e) => n * Size(e)
    case Slice(_) => 24
    case Pointer(_) => 8
    case Struct(_, size) => size
    case Custom(_, size, byteKind) => if byteKind then 1 else size
    case Interface => 16
    case Other(size) => size
  }

  /** The fields of every struct lie in order, without overlap, inside the struct. */
  ghost predicate WellLaid(t: GoType) {
    match t
    case Array(_, e) => WellLaid(e)
    case Slice(e) => WellLaid(e)
    case Pointer(e) => WellLaid(e)
    case Struct(fields, size) =>
      && (forall i :: 0 <= i < |fields| ==> WellLaid(fields[i].typ) && fields[i].offset + Size(fields[i].typ) <= size)
      && forall i, j :: 0 <= i < j < |fields| ==> fields[i].offset + Size(fields[i].typ) <= fields[j].offset
    case _ => true
  }

  // ---------------------------------------------------------------- integers

  /** The two's-complement reading of the w-byte number u. */
  function Convert(u: nat, w: nat, signed: bool): (r: int) {
    var i: int := u;
    if signed && 2 * i >= Pow256(w) then i - Pow256(w) else i
  }

  /** The w-byte pattern of i. */
  function Pattern(i: int, w: nat): (r: nat) {
    var wrapped: int := i + Pow256(w);
    if i >= 0 then i else if wrapped >= 0 then wrapped else 0
  }

  predicate Fits(i: int, w: nat, signed: bool) {
    if signed then -(Pow256(w) as int) <= 2 * i < Pow256(w) else 0 <= i < Pow256(w)
  }

  lemma ConvertExact(i: int, w: nat, signed: bool, u: nat)
    requires u < Pow256(w)
    ensures Convert(u, w, signed) == i <==> Fits(i, w, signed) && u == Pattern(i, w)
  {
  }

  lemma PatternFits(i: int, w: nat, signed: bool)
    requires Fits(i, w, signed)
    ensures Pattern(i, w) < Pow256(w)
  {
  }

  // ---------------------------------------------------------------- typed values

  ghost predicate Typed(t: GoType, v: Value)
    decreases t
  {
    match t
    case Num(w, s, _) => v.Int? && Fits(v.i, w, s)
    case Bool => v.Flag?
    case Str => v.Text?
    case Array(n, e) => v.List? && |v.vs| == n && forall i :: 0 <= i < n ==> Typed(e, v.vs[i])
    case Slice(e) => v.List? && forall i :: 0 <= i < |v.vs| ==> Typed(e, v.vs[i])
    case Pointer(e) => v.Nothing? || (v.Just? && Typed(e, v.v))
    case Struct(fields, _) =>
      && v.List? && |v.vs| == |fields|
      && forall i :: 0 <= i < |fields| ==>
           if IsDecoded(fields[i]) then Typed(fields[i].typ, v.vs[i]) else v.vs[i] == Absent
    case Custom(_, _, _) => v.Image? && |v.cells| == Size(t)
    case Interface => false
    case Other(_) => false
  }

  // ---------------------------------------------------------------- writing and reading memory

  /** Writes cells at position at, clipped to the memory. */
  function Put(mem: seq<Cell>, at: nat, cells: seq<Cell>): (r: seq<Cell>)
    ensures |r| == |mem|
  {
    seq(|mem|, k requires 0 <= k < |mem| => if at <= k < at + |cells| then cells[k - at] else mem[k])
  }

  function Peek(mem: seq<Cell>, at: nat): (r: Cell) {
    if at < |mem| then mem[at] else Raw(0)
  }

  function Raws(b: seq<byte>): (cells: seq<Cell>)
    ensures |cells| == |b|
  {
    seq(|b|, k requires 0 <= k < |b| => Raw(b[k]))
  }

  /** The n plain bytes at position at. */
  function Bytes(mem: seq<Cell>, at: nat, n: nat): (b: seq<byte>)
    ensures |b| == n
  {
    seq<byte>(n, k requires 0 <= k < n => ByteAt(mem, at + k))
  }

  function ByteAt(mem: seq<Cell>, at: nat): (r: byte) {
    if Peek(mem, at).Raw? then Peek(mem, at).b else 0
  }

  function Cells(mem: seq<Cell>, at: nat, n: nat): (cells: seq<Cell>)
    ensures |cells| == n
  {
    seq(n, k requires 0 <= k < n => Peek(mem, at + k))
  }

  /** A header of the given size that refers to block. */
  function Header(size: nat, len: nat, block: seq<Cell>): (cells: seq<Cell>)
    ensures |cells| == size
  {
    seq(size, k requires 0 <= k < size => Ref(len, block, k))
  }

  /** Freshly allocated memory. */
  function Zeros(n: nat): (cells: seq<Cell>)
    ensures |cells| == n
  {
    seq(n, _ => Raw(0))
  }

  function IntCells(i: int, w: nat): (cells: seq<Cell>)
    ensures |cells| == w
  {
    Raws(LE(Pattern(i, w), w))
  }

  /** Writes v, a value of type t, at position at. */
  function Store(t: GoType, v: Value, mem: seq<Cell>, at: nat): (r: seq<Cell>)
    ensures |r| == |mem|
    decreases t, 2, 0
  {
    match (t, v)
    case (Num(w, _, _), Int(i)) => Put(mem, at, IntCells(i, w))
    case (Bool, Flag(f)) => Put(mem, at, [Raw(if f then 1 else 0)])
    case (Str, Text(s)) => Put(mem, at, Header(16, |s|, Raws(s)))
    case (Array(n, e), List(vs)) => StoreElems(e, vs, n, mem, at)
    case (Slice(e), List(vs)) =>
      Put(mem, at, Header(24, |vs|, StoreElems(e, vs, |vs|, Zeros(|vs| * Size(e)), 0)))
    case (Pointer(_), Nothing) => Put(mem, at, Zeros(8))
    case (Pointer(e), Just(x)) => Put(mem, at, Header(8, 1, Store(e, x, Zeros(Size(e)), 0)))
    case (Struct(fields, _), List(vs)) => StoreFields(t, vs, |fields|, mem, at)
    case (Custom(_, _, _), Image(cells)) => Put(mem, at, cells)
    case _ => mem
  }

  function StoreElems(e: GoType, vs: seq<Value>, n: nat, mem: seq<Cell>, at: nat): (r: seq<Cell>)
    ensures |r| == |mem|
    decreases e, 3, n
  {
    if n == 0 then mem
    else
      var before := StoreElems(e, vs, n - 1, mem, at);
      if n <= |vs| then Store(e, vs[n - 1], before, at + (n - 1) * Size(e)) else before
  }

  function StoreFields(t: GoType, vs: seq<Value>, n: nat, mem: seq<Cell>, at: nat): (r: seq<Cell>)
    requires t.Struct? && n <= |t.fields|
    ensures |r| == |mem|
    decreases t, 1, n
  {
    if n == 0 then mem
    else
      var before := StoreFields(t, vs, n - 1, mem, at);
      var f := t.fields[n - 1];
      if n <= |vs| && IsDecoded(f) then Store(f.typ, vs[n - 1], before, at + f.offset) else before
  }

  /** Reads the value of type t at position at. */
  function Load(t: GoType, mem: seq<Cell>, at: nat): (r: Value)
    decreases t, 2, 0
  {
    match t
    case Num(w, s, _) => Int(Convert(LEValue(Bytes(mem, at, w)), w, s))
    case Bool => Flag(Bytes(mem, at, 1) != [0])
    case Str =>
      var h := Peek(mem, at);
      if h.Ref? then Text(Bytes(h.block, 0, |h.block|)) else Text([])
    case Array(n, e) => List(LoadElems(e, n, mem, at))
    case Slice(e) =>
      var h := Peek(mem, at);
      if h.Ref? then List(LoadElems(e, h.len, h.block, 0)) else List([])
    case Pointer(e) =>
      var h := Peek(mem, at);
      if h.Ref? then Just(Load(e, h.block, 0)) else Nothing
    case Struct(fields, _) => List(LoadFields(t, |fields|, mem, at))
    case Custom(_, _, _) => Image(Cells(mem, at, Size(t)))
    case Interface => Absent
    case Other(_) => Absent
  }

  function LoadElems(e: GoType, n: nat, mem: seq<Cell>, at: nat): (vs: seq<Value>)
    ensures |vs| == n
    decreases e, 3, n
  {
    if n == 0 then [] else LoadElems(e, n - 1, mem, at) + [Load(e, mem, at + (n - 1) * Size(e))]
  }

  function LoadFields(t: GoType, n: nat, mem: seq<Cell>, at: nat): (vs: seq<Value>)
    requires t.Struct? && n <= |t.fields|
    ensures |vs| == n
    decreases t, 1, n
  {
    if n == 0 then []
    else
      var f := t.fields[n - 1];
      LoadFields(t, n - 1, mem, at) + [if IsDecoded(f) then Load(f.typ, mem, at + f.offset) else Absent]
  }

  // ---------------------------------------------------------------- footprints

  /**
   Cell k belongs to the decoded part of a t at position at: not to padding, nor to an unexported
   field or one tagged to be skipped.
   */
  predicate Touches(t: GoType, at: nat, k: nat)
    decreases t, 2, 0
  {
    match t
    case Array(n, e) => TouchesElems(e, n, at, k)
    case Struct(fields, _) => TouchesFields(t, |fields|, at, k)
    case _ => at <= k < at + Size(t)
  }

  predicate TouchesElems(e: GoType, n: nat, at: nat, k: nat)
    decreases e, 3, n
  {
    n > 0 && (TouchesElems(e, n - 1, at, k) || Touches(e, at + (n - 1) * Size(e), k))
  }

  predicate TouchesFields(t: GoType, n: nat, at: nat, k: nat)
    requires t.Struct? && n <= |t.fields|
    decreases t, 1, n
  {
    n > 0
    && (TouchesFields(t, n - 1, at, k)
        || (IsDecoded(t.fields[n - 1]) && Touches(t.fields[n - 1].typ, at + t.fields[n - 1].offset, k)))
  }

  /** Storing a value changes no cell outside its decoded part. */
  lemma {:induction false} StoreFrame(t: GoType, v: Value, mem: seq<Cell>, at: nat, k: nat)
    requires Typed(t, v) && k < |mem| && !Touches(t, at, k)
    ensures Store(t, v, mem, at)[k] == mem[k]
    decreases t, 2, 0
  {
    match t
    case Array(n, e) => StoreElemsFrame(e, v.vs, n, mem, at, k);
    case Struct(fields, _) => StoreFieldsFrame(t, v.vs, |fields|, mem, at, k);
    case _ =>
  }

  lemma {:induction false} StoreElemsFrame(e: GoType, vs: seq<Value>, n: nat, mem: seq<Cell>, at: nat, k: nat)
    requires n <= |vs| && k < |mem| && !TouchesElems(e, n, at, k)
    requires forall i :: 0 <= i < n ==> Typed(e, vs[i])
    ensures StoreElems(e, vs, n, mem, at)[k] == mem[k]
    decreases e, 3, n
  {
    hide Store, Touches, Typed;
    if n > 0 {
      StoreElemsFrame(e, vs, n - 1, mem, at, k);
      StoreFrame(e, vs[n - 1], StoreElems(e, vs, n - 1, mem, at), at + (n - 1) * Size(e), k);
    }
  }

  lemma {:induction false} StoreFieldsFrame(t: GoType, vs: seq<Value>, n: nat, mem: seq<Cell>, at: nat, k: nat)
    requires t.Struct? && Typed(t, List(vs)) && n <= |t.fields| && k < |mem| && !TouchesFields(t, n, at, k)
    ensures StoreFields(t, vs, n, mem, at)[k] == mem[k]
    decreases t, 1, n
  {
    if n > 0 {
      StoreFieldsFrame(t, vs, n - 1, mem, at, k);
      var f := t.fields[n - 1];
      if IsDecoded(f) {
        StoreFrame(f.typ, vs[n - 1], StoreFields(t, vs, n - 1, mem, at), at + f.offset, k);
      }
    }
  }

  /** The decoded part lies inside the object. */
  lemma {:induction false} TouchesInside(t: GoType, at: nat, k: nat)
    requires WellLaid(t) && Touches(t, at, k)
    ensures at <= k < at + Size(t)
    decreases t, 2, 0
  {
    match t
    case Array(n, e) => TouchesElemsInside(e, n, at, k);
    case Struct(fields, _) => TouchesFieldsInside(t, |fields|, at, k);
    case _ =>
  }

  lemma {:induction false} TouchesElemsInside(e: GoType, n: nat, at: nat, k: nat)
    requires WellLaid(e) && TouchesElems(e, n, at, k)
    ensures at <= k < at + n * Size(e)
    decreases e, 3, n
  {
    Stride(n, Size(e));
    if TouchesElems(e, n - 1, at, k) {
      TouchesElemsInside(e, n - 1, at, k);
    } else {
      TouchesInside(e, at + (n - 1) * Size(e), k);
    }
  }

  lemma Stride(n: nat, size: nat)
    requires n > 0
    ensures n * size == (n - 1) * size + size && (n - 1) * size >= 0
  {
  }

  lemma {:induction false} TouchesFieldsInside(t: GoType, n: nat, at: nat, k: nat)
    requires WellLaid(t) && t.Struct? && n <= |t.fields| && TouchesFields(t, n, at, k)
    ensures at <= k < at + t.size
    ensures k < at + t.fields[n - 1].offset + Size(t.fields[n - 1].typ)
    decreases t, 1, n
  {
    if TouchesFields(t, n - 1, at, k) {
      TouchesFieldsInside(t, n - 1, at, k);
    } else {
      TouchesInside(t.fields[n - 1].typ, at + t.fields[n - 1].offset, k);
    }
  }

  // ---------------------------------------------------------------- reading back

  /** The two memories agree on the n cells at position at. */
  ghost predicate Agree(a: seq<Cell>, b: seq<Cell>, at: nat, n: nat) {
    |a| == |b| && forall k :: at <= k < at + n && k < |a| ==> a[k] == b[k]
  }

  lemma AgreePart(a: seq<Cell>, b: seq<Cell>, at: nat, n: nat, at': nat, n': nat)
    requires Agree(a, b, at, n) && at <= at' && at' + n' <= at + n
    ensures Agree(a, b, at', n')
  {
  }

  lemma AgreeCells(a: seq<Cell>, b: seq<Cell>, at: nat, n: nat)
    requires Agree(a, b, at, n)
    ensures Bytes(a, at, n) == Bytes(b, at, n)
    ensures Cells(a, at, n) == Cells(b, at, n)
    ensures n > 0 ==> Peek(a, at) == Peek(b, at)
  {
    forall x: nat | at <= x < at + n ensures Peek(a, x) == Peek(b, x) && ByteAt(a, x) == ByteAt(b, x) {
    }
    assert forall k :: 0 <= k < n ==> Cells(a, at, n)[k] == Cells(b, at, n)[k];
    assert forall k :: 0 <= k < n ==> Bytes(a, at, n)[k] == Bytes(b, at, n)[k];
  }

  lemma {:induction false} LoadAgree(t: GoType, a: seq<Cell>, b: seq<Cell>, at: nat)
    requires WellLaid(t) && Agree(a, b, at, Size(t))
    ensures Load(t, a, at) == Load(t, b, at)
    decreases t, 2, 0
  {
    AgreeCells(a, b, at, Size(t));
    match t
    case Array(n, e) => LoadElemsAgree(e, n, a, b, at);
    case Struct(fields, _) => LoadFieldsAgree(t, |fields|, a, b, at);
    case _ =>
  }

  lemma {:induction false} LoadElemsAgree(e: GoType, n: nat, a: seq<Cell>, b: seq<Cell>, at: nat)
    requires WellLaid(e) && Agree(a, b, at, n * Size(e))
    ensures LoadElems(e, n, a, at) == LoadElems(e, n, b, at)
    decreases e, 3, n
  {
    if n > 0 {
      Stride(n, Size(e));
      AgreePart(a, b, at, n * Size(e), at, (n - 1) * Size(e));
      LoadElemsAgree(e, n - 1, a, b, at);
      AgreePart(a, b, at, n * Size(e), at + (n - 1) * Size(e), Size(e));
      LoadAgree(e, a, b, at + (n - 1) * Size(e));
    }
  }

  lemma {:induction false} LoadFieldsAgree(t: GoType, n: nat, a: seq<Cell>, b: seq<Cell>, at: nat)
    requires t.Struct? && n <= |t.fields| && WellLaid(t)
    requires n > 0 ==> Agree(a, b, at, t.fields[n - 1].offset + Size(t.fields[n - 1].typ))
    ensures LoadFields(t, n, a, at) == LoadFields(t, n, b, at)
    decreases t, 1, n
  {
    if n > 0 {
      var f := t.fields[n - 1];
      LoadFieldsAgree(t, n - 1, a, b, at);
      AgreePart(a, b, at, f.offset + Size(f.typ), at + f.offset, Size(f.typ));
      LoadAgree(f.typ, a, b, at + f.offset);
    }
  }

  /** Storing at and past position to leaves the cells before it alone. */
  lemma StoreBeyond(t: GoType, v: Value, mem: seq<Cell>, at: nat, from: nat, n: nat)
    requires WellLaid(t) && Typed(t, v) && from + n <= at
    ensures Agree(Store(t, v, mem, at), mem, from, n)
  {
    forall k | from <= k < from + n && k < |mem| ensures Store(t, v, mem, at)[k] == mem[k] {
      if Touches(t, at, k) {
        TouchesInside(t, at, k);
      } else {
        StoreFrame(t, v, mem, at, k);
      }
    }
  }

  lemma PutPeek(mem: seq<Cell>, at: nat, cells: seq<Cell>)
    requires at + |cells| <= |mem|
    ensures Cells(Put(mem, at, cells), at, |cells|) == cells
    ensures |cells| > 0 ==> Peek(Put(mem, at, cells), at) == cells[0]
  {
    var r := Put(mem, at, cells);
    forall k | 0 <= k < |cells| ensures Peek(r, at + k) == cells[k] {
      assert r[at + k] == cells[k];
    }
  }

  lemma PutBytes(mem: seq<Cell>, at: nat, b: seq<byte>)
    requires at + |b| <= |mem|
    ensures Bytes(Put(mem, at, Raws(b)), at, |b|) == b
  {
    var r := Put(mem, at, Raws(b));
    forall k | 0 <= k < |b| ensures ByteAt(r, at + k) == b[k] {
      assert r[at + k] == Raws(b)[k];
    }
  }

  /** Storing a value and reading it back gives the value. */
  lemma {:induction false} LoadStore(t: GoType, v: Value, mem: seq<Cell>, at: nat)
    requires WellLaid(t) && Typed(t, v) && at + Size(t) <= |mem|
    ensures Load(t, Store(t, v, mem, at), at) == v
    decreases t, 2, 0
  {
    match t
    case Num(w, s, _) =>
      PatternFits(v.i, w, s);
      LERoundTrip(Pattern(v.i, w), w);
      PutBytes(mem, at, LE(Pattern(v.i, w), w));
      ConvertExact(v.i, w, s, Pattern(v.i, w));
    case Bool =>
      var b: byte := if v.f then 1 else 0;
      assert Raws([b]) == [Raw(b)];
      PutBytes(mem, at, [b]);
    case Str =>
      PutPeek(mem, at, Header(16, |v.s|, Raws(v.s)));
      assert Peek(Store(t, v, mem, at), at) == Ref(|v.s|, Raws(v.s), 0);
      assert Bytes(Raws(v.s), 0, |v.s|) == v.s;
    case Array(n, e) =>
      LoadStoreElems(e, v.vs, n, mem, at);
    case Slice(e) =>
      var block := StoreElems(e, v.vs, |v.vs|, Zeros(|v.vs| * Size(e)), 0);
      PutPeek(mem, at, Header(24, |v.vs|, block));
      assert Peek(Store(t, v, mem, at), at) == Ref(|v.vs|, block, 0);
      LoadStoreElems(e, v.vs, |v.vs|, Zeros(|v.vs| * Size(e)), 0);
    case Pointer(e) =>
      if v.Just? {
        PutPeek(mem, at, Header(8, 1, Store(e, v.v, Zeros(Size(e)), 0)));
        assert Peek(Store(t, v, mem, at), at) == Ref(1, Store(e, v.v, Zeros(Size(e)), 0), 0);
        LoadStore(e, v.v, Zeros(Size(e)), 0);
      } else {
        PutPeek(mem, at, Zeros(8));
        assert Peek(Store(t, v, mem, at), at) == Raw(0);
      }
    case Struct(fields, _) =>
      LoadStoreFields(t, v.vs, |fields|, mem, at);
    case Custom(_, _, _) =>
      PutPeek(mem, at, v.cells);
      assert Load(t, Store(t, v, mem, at), at).cells == v.cells;
  }

  lemma {:induction false} LoadStoreElems(e: GoType, vs: seq<Value>, n: nat, mem: seq<Cell>, at: nat)
    requires WellLaid(e) && n <= |vs| && at + n * Size(e) <= |mem|
    requires forall i :: 0 <= i < n ==> Typed(e, vs[i])
    ensures LoadElems(e, n, StoreElems(e, vs, n, mem, at), at) == vs[..n]
    decreases e, 3, n
  {
    hide Store, Load, Typed, WellLaid, Agree;
    if n > 0 {
      Stride(n, Size(e));
      LoadStoreElems(e, vs, n - 1, mem, at);
      var before := StoreElems(e, vs, n - 1, mem, at);
      StoreBeyond(e, vs[n - 1], before, at + (n - 1) * Size(e), at, (n - 1) * Size(e));
      LoadElemsAgree(e, n - 1, StoreElems(e, vs, n, mem, at), before, at);
      LoadStore(e, vs[n - 1], before, at + (n - 1) * Size(e));
    }
  }

  lemma FieldLaid(t: GoType, vs: seq<Value>, n: nat)
    requires t.Struct? && WellLaid(t) && Typed(t, List(vs)) && 0 < n <= |t.fields|
    ensures |vs| == |t.fields| && WellLaid(t.fields[n - 1].typ)
    ensures t.fields[n - 1].offset + Size(t.fields[n - 1].typ) <= t.size
    ensures if IsDecoded(t.fields[n - 1]) then Typed(t.fields[n - 1].typ, vs[n - 1]) else vs[n - 1] == Absent
    ensures n > 1 ==> t.fields[n - 2].offset + Size(t.fields[n - 2].typ) <= t.fields[n - 1].offset
  {
    hide Size;
  }

  lemma {:induction false} LoadStoreFields(t: GoType, vs: seq<Value>, n: nat, mem: seq<Cell>, at: nat)
    requires t.Struct? && WellLaid(t) && |vs| == |t.fields| && Typed(t, List(vs)) && n <= |t.fields|
    requires at + t.size <= |mem|
    ensures LoadFields(t, n, StoreFields(t, vs, n, mem, at), at) == vs[..n]
    decreases t, 1, n
  {
    hide Load, Store, Typed, WellLaid, Agree, Size;
    if n > 0 {
      FieldLaid(t, vs, n);
      var f := t.fields[n - 1];
      LoadStoreFields(t, vs, n - 1, mem, at);
      assert vs[..n] == vs[..n - 1] + [vs[n - 1]];
      var before := StoreFields(t, vs, n - 1, mem, at);
      if IsDecoded(f) {
        StoreBeyond(f.typ, vs[n - 1], before, at + f.offset, at, f.offset);
        if n > 1 {
          var g := t.fields[n - 2];
          AgreePart(StoreFields(t, vs, n, mem, at), before, at, f.offset, at, g.offset + Size(g.typ));
        }
        LoadFieldsAgree(t, n - 1, StoreFields(t, vs, n, mem, at), before, at);
        LoadStore(f.typ, vs[n - 1], before, at + f.offset);
      }
    }
  }
}

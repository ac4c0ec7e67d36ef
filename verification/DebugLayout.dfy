/**
  What a debugger reads from a description (ldc/gen/dibuilder.cpp): which cells a value occupies
  and what each address points to, computed from the description's tags alone, compared with
  the layout of the D type itself.
 */
module DebugLayout {
  import opened Options
  import opened DebugTypes

  /** One cell of a value; composite objects are named, their cells are listed in their nodes. */
  datatype Cell =
    | Scalar(n: nat) | Opaque(n: nat) | Object(a: Agg) | OpaqueObject(a: Agg)
    | Address(to: seq<Cell>) | Code(params: seq<seq<Cell>>)
    | Table(key: seq<Cell>, value: seq<Cell>, handle: seq<Cell>)

  function Times(n: nat, cs: seq<Cell>): seq<Cell> { if n == 0 then [] else cs + Times(n - 1, cs) }

  function Product(dims: seq<nat>): nat { if dims == [] then 1 else dims[0] * Product(dims[1..]) }

  // ------------------------------------------------------------- read from a description

  function Cells(d: DI): seq<Cell>
    decreases d, 2
  {
    match d
    case Null => []
    case Comp(_) => []
    case AggRef(a) => [Object(a)]
    case Node(tag, kids) =>
      match tag
      case LBasic(n) => [Scalar(n)]
      case LUnspecified(n) => [Opaque(n)]
      case LUnspecifiedAgg(a) => [OpaqueObject(a)]
      case LPointer => [Address(AllCells(d, |kids|))]
      case LReference => [Address(AllCells(d, |kids|))]
      case LPointerReference => [Address(AllCells(d, |kids|))]
      case LObjectPointer => AllCells(d, |kids|)
      case LTypedef => AllCells(d, |kids|)
      case LEnumeration(_) => AllCells(d, |kids|)
      case LMember => AllCells(d, |kids|)
      case LVector(n) => Times(n, AllCells(d, |kids|))
      case LArray(dims) => Times(Product(dims), AllCells(d, |kids|))
      case LSlice => MemberCells(d, |kids|)
      case LDelegate => MemberCells(d, |kids|)
      case LAssoc => if |kids| < 2 then [] else [Table(Cells(kids[0]), Cells(kids[1]), MemberCells(d, |kids|))]
      case LFunction => [Code(EachCells(d, |kids|))]
      case LInheritance => if |kids| < 2 then [] else Cells(kids[1])
      case LStaticMember => []
  }

  /** The cells of the first n parts, one after the other. */
  function AllCells(d: DI, n: nat): seq<Cell>
    requires d.Node? && n <= |d.kids|
    decreases d, 1, n
  {
    if n == 0 then [] else AllCells(d, n - 1) + Cells(d.kids[n - 1])
  }

  /** Of the parts of a structure only members and the base take up room. */
  function MemberCells(d: DI, n: nat): seq<Cell>
    requires d.Node? && n <= |d.kids|
    decreases d, 1, n
  {
    if n == 0 then []
    else MemberCells(d, n - 1) + (if InPlace(d.kids[n - 1]) then Cells(d.kids[n - 1]) else [])
  }

  predicate InPlace(d: DI) { d.Node? && (d.tag.LMember? || d.tag.LInheritance?) }

  function EachCells(d: DI, n: nat): seq<seq<Cell>>
    requires d.Node? && n <= |d.kids|
    decreases d, 1, n
  {
    if n == 0 then [] else EachCells(d, n - 1) + [Cells(d.kids[n - 1])]
  }

  // ---------------------------------------------------------------------- of the D type

  const Bytes: seq<Cell> := [Scalar(0)]

  /** A value of the type. */
  function Layout(p: Program, t: Ty): seq<Cell>
    requires Known(p, t)
    decreases t, 0
  {
    match t
    case Void => []
    case Noreturn => []
    case NullTy => [Address([])]
    case Basic(n, _) => [Scalar(n)]
    case OpaqueEnum(n) => [Opaque(n)]
    case Enum(_, _, m) => Layout(p, m)
    case Vector(n, e) => Times(n, Stored(p, e))
    case Pointer(n) => [Address(Stored(p, n))]
    case DArray(n) => [Scalar(1), Address(Stored(p, n))]
    case SArray(n, e) => Times(n, Stored(p, e))
    case AArray(k, v) => [Table(Layout(p, k), Layout(p, v), [Address(Bytes)])]
    case Struct(a) => Instance(p, a)
    case Class(a) => [Address(Instance(p, a))]
    case Function(r, ps) => [Code([Passed(p, r)] + PassedAll(p, ps))]
    case Delegate(f) => [Address(Bytes), Address(Stored(p, f))]
  }

  /** What an address of that type leads to: of type void, bytes. */
  function Stored(p: Program, t: Ty): seq<Cell>
    requires Known(p, t)
    decreases t, 1
  {
    if BaseType(t).Void? then Bytes else Layout(p, t)
  }

  function Instance(p: Program, a: Agg): seq<Cell>
    requires a in p
  {
    if p[a].sized then [Object(a)] else [OpaqueObject(a)]
  }

  /** void and noreturn, also under a magic enum. */
  predicate NoObject(t: Ty) { t.Void? || t.Noreturn? || (t.Enum? && t.special && NoObject(t.mem)) }

  /** By value, or by address. */
  function Passed(p: Program, q: Param): seq<Cell>
    requires Known(p, q.ty)
    decreases q, 0
  {
    if !q.isRef then Layout(p, q.ty) else if NoObject(q.ty) then [Address(Bytes)] else [Address(Layout(p, q.ty))]
  }

  function PassedAll(p: Program, ps: Params): seq<seq<Cell>>
    requires KnownParams(p, ps)
    decreases ps, 0
  {
    if ps.NoMore? then [] else [Passed(p, ps.first)] + PassedAll(p, ps.rest)
  }

  // --------------------------------------------------------------------------- the proof

  lemma OneKid(l: Label, d: DI)
    ensures var n := Node(l, [d]); AllCells(n, |n.kids|) == Cells(d)
  {
    var n := Node(l, [d]);
    assert AllCells(n, 0) + Cells(n.kids[0]) == Cells(d);
  }

  lemma MemberIs(d: DI)
    ensures Cells(Member(d)) == Cells(d) && InPlace(Member(d))
  {
    OneKid(LMember, d);
  }

  lemma TwoMembers(l: Label, a: DI, b: DI)
    ensures var n := Node(l, [Member(a), Member(b)]); MemberCells(n, |n.kids|) == Cells(a) + Cells(b)
  {
    hide Cells;
    MemberIs(a);
    MemberIs(b);
    var n := Node(l, [Member(a), Member(b)]);
    assert MemberCells(n, 1) == MemberCells(n, 0) + Cells(n.kids[0]);
    assert MemberCells(n, 2) == MemberCells(n, 1) + Cells(n.kids[1]);
  }

  lemma {:induction false} TimesAppend(m: nat, k: nat, cs: seq<Cell>)
    ensures Times(m, cs) + Times(k, cs) == Times(m + k, cs)
  {
    if m > 0 {
      TimesAppend(m - 1, k, cs);
      assert Times(m, cs) + Times(k, cs) == cs + (Times(m - 1, cs) + Times(k, cs));
    }
  }

  lemma {:induction false} TimesTimes(n: nat, m: nat, cs: seq<Cell>)
    ensures n * m >= 0 && Times(n, Times(m, cs)) == Times(n * m, cs)
  {
    if n > 0 {
      TimesTimes(n - 1, m, cs);
      assert (n - 1) * m + m == n * m;
      TimesAppend(m, (n - 1) * m, cs);
    }
  }

  /** A static array of static arrays is one array with the product of the dimensions. */
  lemma {:induction false} ArrayLayout(p: Program, t: Ty)
    requires Known(p, t)
    ensures Known(p, Elem(t))
    ensures t.SArray? ==> Layout(p, t) == Times(Product(Dims(t)), Stored(p, Elem(t)))
    ensures !t.SArray? ==> Elem(t) == t && Dims(t) == []
  {
    if t.SArray? {
      ArrayLayout(p, t.next);
      var dims := Dims(t);
      assert dims[0] == t.dim && dims[1..] == Dims(t.next);
      if t.next.SArray? {
        TimesTimes(t.dim, Product(Dims(t.next)), Stored(p, Elem(t)));
      } else {
        assert Product(dims) == t.dim;
      }
    }
  }

  lemma {:induction false} BaseLayout(p: Program, t: Ty)
    requires Known(p, t)
    ensures Known(p, BaseType(t)) && Layout(p, BaseType(t)) == Layout(p, t)
  {
    if t.Enum? { BaseLayout(p, t.mem); }
  }

  lemma {:induction false} NullDesc(p: Program, t: Ty)
    requires Known(p, t)
    ensures DescPlain(p, t) == Null <==> NoObject(t)
    ensures Desc(p, t, false) == DescPlain(p, t)
  {
    if t.Enum? {
      KnownBase(p, t.mem);
      BaseTypeWeight(t.mem);
      NullDesc(p, t.mem);
    }
  }

  /** A value is described as what it is: the cells read from the description are the type's. */
  lemma {:induction false} DescLayout(p: Program, t: Ty, stored: bool)
    requires Known(p, t)
    ensures Cells(Desc(p, t, stored)) == if stored then Stored(p, t) else Layout(p, t)
    decreases Weight(t), 2
  {
    if stored && BaseType(t).Void? {
      assert Desc(p, t, stored) == Leaf(LBasic(0));
    } else {
      PlainLayout(p, t);
    }
  }

  lemma {:induction false} PlainLayout(p: Program, t: Ty)
    requires Known(p, t)
    ensures Cells(DescPlain(p, t)) == Layout(p, t)
    decreases Weight(t), 1
  {
    hide Desc, DescPlain, Cells, Layout, Stored, Elem;
    match t
    case Enum(n, special, m) => EnumLayout(p, n, special, m);
    case NullTy =>
      DescLayout(p, Void, false);
      NullLayout(p);
    case Vector(n, e) =>
      DescLayout(p, e, true);
      ElementLayout(p, n, e);
    case Pointer(n) =>
      DescLayout(p, n, true);
      ElementLayout(p, 0, n);
    case DArray(n) => SliceLayout(p, n);
    case SArray(_, _) =>
      ArrayLayout(p, t);
      DescOfSArray(p, t);
      DescLayout(p, Elem(t), true);
      ArrayCells(Dims(t), Desc(p, Elem(t), true));
    case AArray(k, v) => TableLayout(p, k, v);
    case Class(a) => LeafLayout(p, t);
    case Function(r, ps) => FunctionLayout(p, r, ps);
    case Delegate(f) => DelegateLayout(p, f);
    case _ => LeafLayout(p, t);
  }

  lemma LeafLayout(p: Program, t: Ty)
    requires Known(p, t)
    requires t.Void? || t.Noreturn? || t.Basic? || t.OpaqueEnum? || t.Struct? || t.Class?
    ensures Cells(DescPlain(p, t)) == Layout(p, t)
  {
    if t.Class? { OneKid(LPointer, AggDesc(p, t.agg)); }
  }

  lemma NullLayout(p: Program)
    ensures Cells(DescPlain(p, NullTy)) == [Address(Cells(Desc(p, Void, false)))]
    ensures Layout(p, NullTy) == [Address(Layout(p, Void))]
  {
    OneKid(LPointer, Desc(p, Void, false));
  }

  lemma ElementLayout(p: Program, n: nat, e: Ty)
    requires Known(p, e)
    ensures Cells(DescPlain(p, Vector(n, e))) == Times(n, Cells(Desc(p, e, true)))
    ensures Cells(DescPlain(p, Pointer(e))) == [Address(Cells(Desc(p, e, true)))]
    ensures Layout(p, Vector(n, e)) == Times(n, Stored(p, e)) && Layout(p, Pointer(e)) == [Address(Stored(p, e))]
  {
    hide Desc;
    OneKid(LVector(n), Desc(p, e, true));
    OneKid(LPointer, Desc(p, e, true));
  }

  lemma ArrayCells(dims: seq<nat>, d: DI)
    ensures Cells(Node(LArray(dims), [d])) == Times(Product(dims), Cells(d))
  {
    OneKid(LArray(dims), d);
  }

  lemma {:induction false} EnumLayout(p: Program, n: nat, special: bool, m: Ty)
    requires Known(p, m)
    ensures var t := Enum(n, special, m); Cells(DescPlain(p, t)) == Layout(p, t)
    decreases Weight(Enum(n, special, m)), 0
  {
    hide Desc, Cells, Layout;
    var t := Enum(n, special, m);
    DescOfEnum(p, n, special, m);
    DescLayout(p, m, false);
    DescLayout(p, BaseType(m), false);
    BaseLayout(p, m);
    SignlessLayout(p, n, special, m);
  }

  lemma SignlessLayout(p: Program, n: nat, special: bool, m: Ty)
    requires Known(p, m)
    ensures Layout(p, Enum(n, special, m)) == Layout(p, m)
    ensures forall d :: Cells(Node(LTypedef, [d])) == Cells(d) && Cells(Node(LEnumeration(n), [d])) == Cells(d)
  {
    forall d ensures Cells(Node(LTypedef, [d])) == Cells(d) && Cells(Node(LEnumeration(n), [d])) == Cells(d) {
      OneKid(LTypedef, d);
      OneKid(LEnumeration(n), d);
    }
  }

  lemma PairLayout(p: Program, t: Ty)
    requires Known(p, t)
    ensures Layout(p, DArray(t)) == Layout(p, SizeT) + Layout(p, Pointer(t))
    ensures Layout(p, Delegate(t)) == Layout(p, Pointer(Void)) + Layout(p, Pointer(t))
  {
  }

  lemma MemberPair(a: DI, b: DI)
    ensures Cells(Node(LSlice, [Member(a), Member(b)])) == Cells(a) + Cells(b)
    ensures Cells(Node(LDelegate, [Member(a), Member(b)])) == Cells(a) + Cells(b)
  {
    hide Cells;
    TwoMembers(LSlice, a, b);
    TwoMembers(LDelegate, a, b);
    StructureCells(Node(LSlice, [Member(a), Member(b)]));
    StructureCells(Node(LDelegate, [Member(a), Member(b)]));
  }

  lemma StructureCells(d: DI)
    requires d.Node? && (d.tag.LSlice? || d.tag.LDelegate?)
    ensures Cells(d) == MemberCells(d, |d.kids|)
  {
  }

  lemma {:induction false} SliceLayout(p: Program, n: Ty)
    requires Known(p, n)
    ensures Cells(DescPlain(p, DArray(n))) == Layout(p, DArray(n))
    decreases Weight(DArray(n)), 0
  {
    hide Desc, DescPlain, Cells, Layout, Stored;
    var a, b := Desc(p, SizeT, false), Desc(p, Pointer(n), false);
    DescOfDArray(p, n);
    DescLayout(p, SizeT, false);
    DescLayout(p, Pointer(n), false);
    PairLayout(p, n);
    MemberPair(a, b);
  }

  lemma {:induction false} DelegateLayout(p: Program, f: Ty)
    requires Known(p, f)
    ensures Cells(DescPlain(p, Delegate(f))) == Layout(p, Delegate(f))
    decreases Weight(Delegate(f)), 0
  {
    hide Desc, DescPlain, Cells, Layout, Stored;
    var a, b := Desc(p, Pointer(Void), false), Desc(p, Pointer(f), false);
    DescOfDelegate(p, f);
    DescLayout(p, Pointer(Void), false);
    DescLayout(p, Pointer(f), false);
    PairLayout(p, f);
    MemberPair(a, b);
  }

  lemma {:induction false} TableLayout(p: Program, k: Ty, v: Ty)
    requires Known(p, k) && Known(p, v)
    ensures Cells(DescPlain(p, AArray(k, v))) == Layout(p, AArray(k, v))
    decreases Weight(AArray(k, v)), 0
  {
    hide Desc, DescPlain, Cells, Layout, Stored;
    var a, b, c := Desc(p, k, false), Desc(p, v, false), Desc(p, Pointer(Void), false);
    DescOfAArray(p, k, v);
    DescLayout(p, k, false);
    DescLayout(p, v, false);
    DescLayout(p, Pointer(Void), false);
    TableIs(p, k, v);
    TableCells(a, b, c);
    assert [Node(LTypedef, [a])] + [Node(LTypedef, [b])] + [Member(c)]
      == [Node(LTypedef, [a]), Node(LTypedef, [b]), Member(c)];
  }

  lemma TableIs(p: Program, k: Ty, v: Ty)
    requires Known(p, k) && Known(p, v)
    ensures Layout(p, AArray(k, v)) == [Table(Layout(p, k), Layout(p, v), Layout(p, Pointer(Void)))]
  {
  }

  lemma TableCells(a: DI, b: DI, c: DI)
    ensures Cells(Node(LAssoc, [Node(LTypedef, [a]), Node(LTypedef, [b]), Member(c)])) == [Table(Cells(a), Cells(b), Cells(c))]
  {
    var n := Node(LAssoc, [Node(LTypedef, [a]), Node(LTypedef, [b]), Member(c)]);
    TypedefIs(a);
    TypedefIs(b);
    MemberIs(c);
    assert Cells(n) == [Table(Cells(n.kids[0]), Cells(n.kids[1]), MemberCells(n, 3))];
    LastInPlace(n);
  }

  lemma TypedefIs(d: DI)
    ensures Cells(Node(LTypedef, [d])) == Cells(d)
  {
    OneKid(LTypedef, d);
  }

  lemma LastInPlace(n: DI)
    requires n.Node? && |n.kids| == 3 && !InPlace(n.kids[0]) && !InPlace(n.kids[1]) && InPlace(n.kids[2])
    ensures MemberCells(n, 3) == Cells(n.kids[2])
  {
    hide Cells, InPlace;
    assert MemberCells(n, 1) == MemberCells(n, 0) + [] == [];
    assert MemberCells(n, 2) == MemberCells(n, 1) + [] == [];
    assert MemberCells(n, 3) == MemberCells(n, 2) + Cells(n.kids[2]);
  }

  lemma {:induction false} EachCellsAt(d: DI, n: nat)
    requires d.Node? && n <= |d.kids|
    ensures |EachCells(d, n)| == n && forall k :: 0 <= k < n ==> EachCells(d, n)[k] == Cells(d.kids[k])
  {
    if n > 0 { EachCellsAt(d, n - 1); }
  }

  /** A parameter or the result. */
  lemma {:induction false} ParamLayout(p: Program, q: Param)
    requires Known(p, q.ty)
    ensures Cells(ParamDesc(Desc(p, q.ty, false), q.isRef)) == Passed(p, q)
    decreases Weight(q.ty), 3
  {
    var d := Desc(p, q.ty, false);
    DescLayout(p, q.ty, false);
    NullDesc(p, q.ty);
    if q.isRef {
      OneKid(LReference, d);
      OneKid(LReference, Leaf(LBasic(0)));
    }
  }

  lemma {:induction false} ParamsLayout(p: Program, ps: Params)
    requires KnownParams(p, ps)
    ensures |ParamDescs(p, ps)| == |PassedAll(p, ps)|
    ensures forall k :: 0 <= k < |PassedAll(p, ps)| ==> Cells(ParamDescs(p, ps)[k]) == PassedAll(p, ps)[k]
    decreases SumWeight(ps) + 1, 0
  {
    hide Cells, Desc, ParamDesc, Passed;
    if ps.More? {
      ParamLayout(p, ps.first);
      ParamsLayout(p, ps.rest);
      var d, rest := ParamDesc(Desc(p, ps.first.ty, false), ps.first.isRef), ParamDescs(p, ps.rest);
      assert ParamDescs(p, ps) == [d] + rest;
    }
  }

  lemma {:induction false} FunctionLayout(p: Program, r: Param, ps: Params)
    requires Known(p, r.ty) && KnownParams(p, ps)
    ensures Cells(DescPlain(p, Function(r, ps))) == Layout(p, Function(r, ps))
    decreases Weight(Function(r, ps)), 0
  {
    hide Desc, ParamDesc, Passed, EachCells;
    var first, rest := ParamDesc(Desc(p, r.ty, false), r.isRef), ParamDescs(p, ps);
    var d := Node(LFunction, [first] + rest);
    ParamLayout(p, r);
    ParamsLayout(p, ps);
    EachCellsAt(d, |d.kids|);
    assert EachCells(d, |d.kids|) == [Passed(p, r)] + PassedAll(p, ps);
    assert DescPlain(p, Function(r, ps)) == d;
  }

  // ------------------------------------------------------------------------- aggregates

  /** The cells of an object with these node elements: the base and the members, in order. */
  function ObjectCells(elems: seq<DI>): seq<Cell> {
    if elems == [] then []
    else ObjectCells(elems[..|elems| - 1]) + (if InPlace(elems[|elems| - 1]) then Cells(elems[|elems| - 1]) else [])
  }

  function FieldsLayout(p: Program, fs: seq<Ty>): seq<Cell>
    requires forall i :: 0 <= i < |fs| ==> Known(p, fs[i])
  {
    if fs == [] then [] else FieldsLayout(p, fs[..|fs| - 1]) + Layout(p, fs[|fs| - 1])
  }

  /** The cells of an object of the aggregate: its base, then its fields in order of declaration. */
  ghost function ObjectLayout(p: Program, a: Agg): seq<Cell>
    requires a in p && DeclKnown(p, p[a])
  {
    if p[a].isInterface then []
    else (if p[a].base.None? then [] else Instance(p, p[a].base.value)) + FieldsLayout(p, p[a].fields)
  }

  lemma {:induction false} ObjectCellsAppend(a: seq<DI>, b: seq<DI>)
    ensures ObjectCells(a + b) == ObjectCells(a) + ObjectCells(b)
  {
    hide Cells;
    if b == [] {
      assert a + b == a;
    } else {
      var n := |b| - 1;
      assert (a + b)[..|a + b| - 1] == a + b[..n] && (a + b)[|a + b| - 1] == b[n];
      ObjectCellsAppend(a, b[..n]);
    }
  }

  lemma {:induction false} FieldsCells(p: Program, fs: seq<Ty>)
    requires forall i :: 0 <= i < |fs| ==> Known(p, fs[i])
    ensures ObjectCells(FieldDescs(p, fs)) == FieldsLayout(p, fs)
  {
    if fs != [] {
      var n := |fs| - 1;
      var f, pre := fs[n], FieldDescs(p, fs[..n]);
      FieldsCells(p, fs[..n]);
      if BaseType(f).Noreturn? {
        BaseLayout(p, f);
        assert FieldDescs(p, fs) == pre + [] == pre;
        assert Layout(p, f) == [];
      } else {
        DescLayout(p, f, false);
        MemberIs(Desc(p, f, false));
        OneElement(Member(Desc(p, f, false)));
        ObjectCellsAppend(pre, [Member(Desc(p, f, false))]);
      }
    }
  }

  lemma OneElement(d: DI)
    ensures ObjectCells([d]) == if InPlace(d) then Cells(d) else []
  {
    hide Cells;
    assert [d][..0] == [];
  }

  lemma {:induction false} NothingInPlace(ds: seq<DI>)
    requires forall i :: 0 <= i < |ds| ==> !InPlace(ds[i])
    ensures ObjectCells(ds) == []
  {
    hide Cells, InPlace;
    if ds != [] { NothingInPlace(ds[..|ds| - 1]); }
  }

  lemma {:induction false} StaticsNotInPlace(p: Program, a: Agg, fs: seq<Ty>)
    requires forall i :: 0 <= i < |fs| ==> Known(p, fs[i])
    ensures forall i :: 0 <= i < |StaticDescs(p, a, fs)| ==> !InPlace(StaticDescs(p, a, fs)[i])
  {
    hide Desc;
    if fs != [] { StaticsNotInPlace(p, a, fs[..|fs| - 1]); }
  }

  /** The cells of the static members, which lie elsewhere. */
  function StaticCells(elems: seq<DI>): seq<seq<Cell>> {
    if elems == [] then []
    else
      var d := elems[|elems| - 1];
      StaticCells(elems[..|elems| - 1]) + (if IsStatic(d) then [Cells(d.kids[0])] else [])
  }

  predicate IsStatic(d: DI) { d.Node? && d.tag.LStaticMember? && d.kids != [] }

  function StaticsLayout(p: Program, fs: seq<Ty>): seq<seq<Cell>>
    requires forall i :: 0 <= i < |fs| ==> Known(p, fs[i])
  {
    if fs == [] then []
    else
      var f := fs[|fs| - 1];
      StaticsLayout(p, fs[..|fs| - 1]) + (if BaseType(f).Noreturn? then [] else [Layout(p, f)])
  }

  lemma {:induction false} StaticCellsAppend(a: seq<DI>, b: seq<DI>)
    ensures StaticCells(a + b) == StaticCells(a) + StaticCells(b)
  {
    hide Cells;
    if b == [] {
      assert a + b == a;
    } else {
      var n := |b| - 1;
      assert (a + b)[..|a + b| - 1] == a + b[..n] && (a + b)[|a + b| - 1] == b[n];
      StaticCellsAppend(a, b[..n]);
    }
  }

  lemma {:induction false} NoStatics(ds: seq<DI>)
    requires forall i :: 0 <= i < |ds| ==> !IsStatic(ds[i])
    ensures StaticCells(ds) == []
  {
    hide Cells;
    if ds != [] { NoStatics(ds[..|ds| - 1]); }
  }

  lemma {:induction false} FieldsNotStatic(p: Program, fs: seq<Ty>)
    requires forall i :: 0 <= i < |fs| ==> Known(p, fs[i])
    ensures forall i :: 0 <= i < |FieldDescs(p, fs)| ==> !IsStatic(FieldDescs(p, fs)[i])
  {
    hide Desc;
    if fs != [] { FieldsNotStatic(p, fs[..|fs| - 1]); }
  }

  lemma OneStatic(d: DI)
    ensures StaticCells([d]) == if IsStatic(d) then [Cells(d.kids[0])] else []
  {
    hide Cells;
    assert [d][..0] == [];
  }

  lemma {:induction false} StaticsCells(p: Program, a: Agg, fs: seq<Ty>)
    requires forall i :: 0 <= i < |fs| ==> Known(p, fs[i])
    ensures StaticCells(StaticDescs(p, a, fs)) == StaticsLayout(p, fs)
  {
    if fs != [] {
      var n := |fs| - 1;
      var f, pre := fs[n], StaticDescs(p, a, fs[..n]);
      StaticsCells(p, a, fs[..n]);
      if BaseType(f).Noreturn? {
        assert StaticDescs(p, a, fs) == pre + [] == pre;
      } else {
        DescLayout(p, f, false);
        var d := Node(LStaticMember, [Desc(p, f, false), AggRef(a)]);
        OneStatic(d);
        StaticCellsAppend(pre, [d]);
      }
    }
  }

  lemma BaseCells(p: Program, a: Agg)
    requires a in p && DeclKnown(p, p[a])
    ensures ObjectCells(BaseDescs(p, a)) ==
      if p[a].isInterface || p[a].base.None? then [] else Instance(p, p[a].base.value)
    ensures StaticCells(BaseDescs(p, a)) == []
  {
    if !p[a].isInterface && p[a].base.Some? {
      OneElement(BaseDescs(p, a)[0]);
      OneStatic(BaseDescs(p, a)[0]);
    }
  }

  /** What the elements of an aggregate's node say of an object is its layout. */
  lemma ExpectedLayout(p: Program, a: Agg)
    requires a in p && DeclKnown(p, p[a])
    ensures ObjectCells(Expected(p, a)) == ObjectLayout(p, a)
    ensures StaticCells(Expected(p, a)) == StaticsLayout(p, p[a].statics)
  {
    hide FieldDescs, StaticDescs, FieldsLayout, BaseDescs, ObjectCells, Instance, Layout, StaticCells, StaticsLayout;
    var base, statics := BaseDescs(p, a), StaticDescs(p, a, p[a].statics);
    var fields := if p[a].isInterface then [] else FieldDescs(p, p[a].fields);
    BaseCells(p, a);
    FieldsCells(p, p[a].fields);
    StaticsNotInPlace(p, a, p[a].statics);
    NothingInPlace(statics);
    ObjectCellsAppend(base, fields);
    ObjectCellsAppend(base + fields, statics);
    StaticsCells(p, a, p[a].statics);
    StaticCellsAppend(base, fields);
    StaticCellsAppend(base + fields, statics);
    FieldsNotStatic(p, p[a].fields);
    NoStatics(fields);
    NoElements();
  }

  lemma NoElements()
    ensures ObjectCells([]) == [] && StaticCells([]) == []
  {
  }
}

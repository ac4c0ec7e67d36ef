/**
  Debug-info descriptions of D types (ldc/gen/dibuilder.cpp).  Aggregates may refer to each
  other and to themselves; while one is described it is represented by a replaceable node,
  which is swapped for the final node when its members are known.
 */
module DebugTypes {
  import opened Options

  type Agg = nat
  type Id = nat

  datatype Param = Param(ty: Ty, isRef: bool)

  datatype Params = NoMore | More(first: Param, rest: Params)

  datatype Ty =
    | Void | Noreturn | NullTy | Basic(n: nat, integral: bool)
    | OpaqueEnum(n: nat) | Enum(n: nat, special: bool, mem: Ty)
    | Vector(dim: nat, elem: Ty) | Pointer(next: Ty) | DArray(next: Ty) | SArray(dim: nat, next: Ty)
    | AArray(key: Ty, next: Ty) | Struct(agg: Agg) | Class(agg: Agg)
    | Function(ret: Param, params: Params) | Delegate(func: Ty)

  /** An aggregate declared at module level; statics are its data-segment members in order. */
  datatype Decl = Decl(sized: bool, isInterface: bool, base: Option<Agg>, fields: seq<Ty>, statics: seq<Ty>)

  type Program = map<Agg, Decl>

  const UByte: Ty := Basic(0, true)
  const SizeT: Ty := Basic(1, true)

  function BaseType(t: Ty): Ty { if t.Enum? then BaseType(t.mem) else t }

  // ------------------------------------------------------------------------- descriptions

  datatype Label =
    | LBasic(n: nat) | LUnspecified(n: nat) | LUnspecifiedAgg(a: Agg) | LPointer | LReference | LTypedef
    | LEnumeration(n: nat) | LVector(dim: nat) | LArray(dims: seq<nat>) | LSlice | LAssoc | LDelegate
    | LFunction | LPointerReference | LObjectPointer | LMember | LStaticMember | LInheritance

  /** Metadata: composite types are shared nodes named by Id, in the specification by their aggregate. */
  datatype DI = Null | Node(tag: Label, kids: seq<DI>) | Comp(id: Id) | AggRef(a: Agg)

  function Leaf(l: Label): DI { Node(l, []) }

  // --------------------------------------------------------------------------- the measure

  function SumWeight(ps: Params): nat {
    if ps.NoMore? then 0 else Weight(ps.first.ty) + SumWeight(ps.rest)
  }

  /** T[] outweighs T*, which outweighs T. */
  function Weight(t: Ty): (w: nat)
    ensures w > 0
  {
    match t
    case NullTy => 2
    case Enum(_, _, m) => 1 + Weight(m)
    case Vector(_, e) => 1 + Weight(e)
    case Pointer(n) => 1 + Weight(n)
    case DArray(n) => 3 + Weight(n)
    case SArray(_, n) => 1 + Weight(n)
    case AArray(k, n) => 3 + Weight(k) + Weight(n)
    case Function(r, ps) => 2 + Weight(r.ty) + SumWeight(ps)
    case Delegate(f) => 3 + Weight(f)
    case _ => 1
  }

  lemma {:induction false} BaseTypeWeight(t: Ty)
    ensures Weight(BaseType(t)) <= Weight(t) && !BaseType(t).Enum?
  {
    if t.Enum? { BaseTypeWeight(t.mem); }
  }

  /** What is left when all static-array dimensions are peeled off. */
  function Elem(t: Ty): (r: Ty)
    ensures Weight(r) <= Weight(t) && !r.SArray?
    ensures t.SArray? ==> Weight(r) < Weight(t)
  {
    if t.SArray? then Elem(t.next) else t
  }

  function Dims(t: Ty): seq<nat> {
    if t.SArray? then [t.dim] + Dims(t.next) else []
  }

  // ---------------------------------------------------------- what a description should be

  function AggDesc(p: Program, a: Agg): DI
    requires a in p
  {
    if p[a].sized then AggRef(a) else Leaf(LUnspecifiedAgg(a))
  }

  /** All aggregates the type mentions are declared. */
  predicate Known(p: Program, t: Ty) {
    match t
    case Enum(_, _, m) => Known(p, m)
    case Vector(_, e) => Known(p, e)
    case Pointer(n) => Known(p, n)
    case DArray(n) => Known(p, n)
    case SArray(_, n) => Known(p, n)
    case AArray(k, n) => Known(p, k) && Known(p, n)
    case Struct(a) => a in p
    case Class(a) => a in p
    case Function(r, ps) => Known(p, r.ty) && KnownParams(p, ps)
    case Delegate(f) => Known(p, f)
    case _ => true
  }

  predicate KnownParams(p: Program, ps: Params) {
    ps.More? ==> Known(p, ps.first.ty) && KnownParams(p, ps.rest)
  }

  lemma {:induction false} KnownBase(p: Program, t: Ty)
    requires Known(p, t)
    ensures Known(p, BaseType(t))
  {
    if t.Enum? { KnownBase(p, t.mem); }
  }

  lemma {:induction false} KnownElem(p: Program, t: Ty)
    requires Known(p, t)
    ensures Known(p, Elem(t))
  {
    if t.SArray? { KnownElem(p, t.next); }
  }

  function Adjusted(t: Ty, voidToUbyte: bool): (r: Ty)
    ensures Weight(r) <= Weight(t)
  {
    if voidToUbyte && BaseType(t).Void? then UByte else t
  }

  function Member(d: DI): DI { Node(LMember, [d]) }

  function ParamDesc(d: DI, isRef: bool): DI {
    if isRef then Node(LReference, [if d == Null then Leaf(LBasic(0)) else d]) else d
  }

  function Desc(p: Program, t: Ty, voidToUbyte: bool): DI
    requires Known(p, t)
    decreases Weight(t), 1
  {
    DescPlain(p, Adjusted(t, voidToUbyte))
  }

  function DescPlain(p: Program, t: Ty): DI
    requires Known(p, t)
    decreases Weight(t), 0
  {
    match t
    case Void => Null
    case Noreturn => Null
    case NullTy => Node(LPointer, [Desc(p, Void, false)])
    case Basic(n, _) => Leaf(LBasic(n))
    case OpaqueEnum(n) => Leaf(LUnspecified(n))
    case Enum(n, special, m) =>
      BaseTypeWeight(m);
      KnownBase(p, m);
      if special then Desc(p, m, false)
      else if !(BaseType(m).Basic? && BaseType(m).integral) then Node(LTypedef, [Desc(p, BaseType(m), false)])
      else Node(LEnumeration(n), [Desc(p, m, false)])
    case Vector(n, e) => Node(LVector(n), [Desc(p, e, true)])
    case Pointer(n) => Node(LPointer, [Desc(p, n, true)])
    case DArray(n) => Node(LSlice, [Member(Desc(p, SizeT, false)), Member(Desc(p, Pointer(n), false))])
    case SArray(_, _) =>
      KnownElem(p, t);
      Node(LArray(Dims(t)), [Desc(p, Elem(t), true)])
    case AArray(k, n) =>
      Node(LAssoc, [Node(LTypedef, [Desc(p, k, false)]), Node(LTypedef, [Desc(p, n, false)]),
                    Member(Desc(p, Pointer(Void), false))])
    case Struct(a) => AggDesc(p, a)
    case Class(a) => Node(LPointer, [AggDesc(p, a)])
    case Function(r, ps) => Node(LFunction, [ParamDesc(Desc(p, r.ty, false), r.isRef)] + ParamDescs(p, ps))
    case Delegate(f) =>
      Node(LDelegate, [Member(Desc(p, Pointer(Void), false)), Member(Desc(p, Pointer(f), false))])
  }

  function ParamDescs(p: Program, ps: Params): (r: seq<DI>)
    requires KnownParams(p, ps)
    decreases SumWeight(ps) + 1, 0
  {
    if ps.NoMore? then []
    else [ParamDesc(Desc(p, ps.first.ty, false), ps.first.isRef)] + ParamDescs(p, ps.rest)
  }

  // ---- the cases of DescPlain, one by one

  lemma DescOfEnum(p: Program, n: nat, special: bool, m: Ty)
    requires Known(p, m)
    ensures Known(p, BaseType(m)) && Weight(BaseType(m)) <= Weight(m)
    ensures DescPlain(p, Enum(n, special, m)) ==
      if special then Desc(p, m, false)
      else if !(BaseType(m).Basic? && BaseType(m).integral) then Node(LTypedef, [Desc(p, BaseType(m), false)])
      else Node(LEnumeration(n), [Desc(p, m, false)])
  {
    KnownBase(p, m);
    BaseTypeWeight(m);
  }

  lemma DescOfDArray(p: Program, n: Ty)
    requires Known(p, n)
    ensures DescPlain(p, DArray(n)) ==
      Node(LSlice, [Member(Desc(p, SizeT, false)), Member(Desc(p, Pointer(n), false))])
  {
  }

  lemma DescOfSArray(p: Program, t: Ty)
    requires Known(p, t) && t.SArray?
    ensures Known(p, Elem(t)) && DescPlain(p, t) == Node(LArray(Dims(t)), [Desc(p, Elem(t), true)])
  {
    KnownElem(p, t);
  }

  lemma DescOfAArray(p: Program, k: Ty, n: Ty)
    requires Known(p, k) && Known(p, n)
    ensures DescPlain(p, AArray(k, n)) ==
      Node(LAssoc, [Node(LTypedef, [Desc(p, k, false)])] + [Node(LTypedef, [Desc(p, n, false)])]
                   + [Member(Desc(p, Pointer(Void), false))])
  {
  }

  /** The implicit first parameter of a declared function: its object, or the frame it is nested in. */
  datatype Context = NoContext | ThisOf(agg: Agg) | NestedContext

  function ContextDescs(p: Program, c: Context): seq<DI>
    requires c.ThisOf? ==> c.agg in p
  {
    match c
    case NoContext => []
    case ThisOf(a) => [ObjectPointer(AggDesc(p, a))]
    case NestedContext => [ObjectPointer(Desc(p, UByte, false))]
  }

  function ObjectPointer(d: DI): DI { Node(LObjectPointer, [Node(LPointerReference, [d])]) }

  function FunctionDesc(p: Program, r: Param, c: Context, ps: Params): DI
    requires Known(p, r.ty) && KnownParams(p, ps) && (c.ThisOf? ==> c.agg in p)
  {
    Node(LFunction, [ParamDesc(Desc(p, r.ty, false), r.isRef)] + ContextDescs(p, c) + ParamDescs(p, ps))
  }

  lemma DescOfFunction(p: Program, r: Param, ps: Params)
    requires Known(p, r.ty) && KnownParams(p, ps)
    ensures DescPlain(p, Function(r, ps)) == FunctionDesc(p, r, NoContext, ps)
  {
    var ret := [ParamDesc(Desc(p, r.ty, false), r.isRef)];
    assert ret + [] == ret;
  }

  lemma DescOfDelegate(p: Program, f: Ty)
    requires Known(p, f)
    ensures DescPlain(p, Delegate(f)) ==
      Node(LDelegate, [Member(Desc(p, Pointer(Void), false)), Member(Desc(p, Pointer(f), false))])
  {
  }

  ghost predicate WellFormed(p: Program) {
    forall a | a in p :: DeclKnown(p, p[a])
  }

  ghost predicate DeclKnown(p: Program, d: Decl) {
    (d.base.Some? ==> d.base.value in p)
    && (forall i :: 0 <= i < |d.fields| ==> Known(p, d.fields[i]))
    && (forall i :: 0 <= i < |d.statics| ==> Known(p, d.statics[i]))
  }

  /** Members in declaration order; those of type noreturn are left out. */
  ghost function FieldDescs(p: Program, fs: seq<Ty>): seq<DI>
    requires forall i :: 0 <= i < |fs| ==> Known(p, fs[i])
  {
    if fs == [] then []
    else
      var f := fs[|fs| - 1];
      FieldDescs(p, fs[..|fs| - 1]) + (if BaseType(f).Noreturn? then [] else [Member(Desc(p, f, false))])
  }

  ghost function StaticDescs(p: Program, a: Agg, fs: seq<Ty>): seq<DI>
    requires forall i :: 0 <= i < |fs| ==> Known(p, fs[i])
  {
    if fs == [] then []
    else
      var f := fs[|fs| - 1];
      StaticDescs(p, a, fs[..|fs| - 1])
      + (if BaseType(f).Noreturn? then [] else [Node(LStaticMember, [Desc(p, f, false), AggRef(a)])])
  }

  lemma FieldDescsStep(p: Program, fs: seq<Ty>, i: nat)
    requires i < |fs| && forall i :: 0 <= i < |fs| ==> Known(p, fs[i])
    ensures BaseType(fs[i]).Noreturn? ==> FieldDescs(p, fs[..i + 1]) == FieldDescs(p, fs[..i])
    ensures !BaseType(fs[i]).Noreturn? ==>
      FieldDescs(p, fs[..i + 1]) == FieldDescs(p, fs[..i]) + [Member(Desc(p, fs[i], false))]
  {
    assert fs[..i + 1][..i] == fs[..i];
  }

  lemma StaticDescsStep(p: Program, a: Agg, fs: seq<Ty>, i: nat)
    requires i < |fs| && forall i :: 0 <= i < |fs| ==> Known(p, fs[i])
    ensures BaseType(fs[i]).Noreturn? ==> StaticDescs(p, a, fs[..i + 1]) == StaticDescs(p, a, fs[..i])
    ensures !BaseType(fs[i]).Noreturn? ==>
      StaticDescs(p, a, fs[..i + 1]) ==
        StaticDescs(p, a, fs[..i]) + [Node(LStaticMember, [Desc(p, fs[i], false), AggRef(a)])]
  {
    assert fs[..i + 1][..i] == fs[..i];
  }

  ghost function BaseDescs(p: Program, a: Agg): seq<DI>
    requires a in p && DeclKnown(p, p[a])
  {
    if p[a].isInterface || p[a].base.None? then []
    else [Node(LInheritance, [AggRef(a), AggDesc(p, p[a].base.value)])]
  }

  ghost function Expected(p: Program, a: Agg): seq<DI>
    requires a in p && DeclKnown(p, p[a])
  {
    BaseDescs(p, a) + (if p[a].isInterface then [] else FieldDescs(p, p[a].fields)) + StaticDescs(p, a, p[a].statics)
  }

  // ---------------------------------------------------------------- references in metadata

  datatype Composite = Temp(agg: Agg) | Final(agg: Agg, elems: seq<DI>)

  type Heap = map<Id, Composite>

  /** Every composite node referred to exists. */
  ghost predicate Live(d: DI, h: Heap) {
    match d
    case Null => true
    case Node(_, kids) => forall i :: 0 <= i < |kids| ==> Live(kids[i], h)
    case Comp(id) => id in h
    case AggRef(_) => false
  }

  ghost predicate LiveAll(ds: seq<DI>, h: Heap) { forall i :: 0 <= i < |ds| ==> Live(ds[i], h) }

  /** The description with every node replaced by the aggregate it describes. */
  ghost function Abs(d: DI, h: Heap): DI {
    match d
    case Node(t, kids) => Node(t, seq(|kids|, i requires 0 <= i < |kids| => Abs(kids[i], h)))
    case Comp(id) => if id in h then AggRef(h[id].agg) else d
    case _ => d
  }

  ghost function AbsAll(ds: seq<DI>, h: Heap): (r: seq<DI>)
    ensures |r| == |ds|
  {
    seq(|ds|, i requires 0 <= i < |ds| => Abs(ds[i], h))
  }

  ghost function AggsIn(d: DI): set<Agg> {
    match d
    case Node(_, kids) => set i, a | 0 <= i < |kids| && a in AggsIn(kids[i]) :: a
    case AggRef(a) => {a}
    case _ => {}
  }

  ghost function AggsInAll(ds: seq<DI>): set<Agg> {
    set i, a | 0 <= i < |ds| && a in AggsIn(ds[i]) :: a
  }

  ghost predicate SameOwners(h: Heap, h': Heap) {
    forall id | id in h :: id in h' && h'[id].agg == h[id].agg
  }

  lemma {:induction false} AbsKept(d: DI, h: Heap, h': Heap)
    requires Live(d, h) && SameOwners(h, h')
    ensures Live(d, h') && Abs(d, h') == Abs(d, h)
  {
    if d.Node? {
      forall i | 0 <= i < |d.kids| ensures Live(d.kids[i], h') && Abs(d.kids[i], h') == Abs(d.kids[i], h) {
        AbsKept(d.kids[i], h, h');
      }
    }
  }

  lemma AbsAllKept(ds: seq<DI>, h: Heap, h': Heap)
    requires LiveAll(ds, h) && SameOwners(h, h')
    ensures LiveAll(ds, h') && AbsAll(ds, h') == AbsAll(ds, h)
  {
    forall i | 0 <= i < |ds| ensures Live(ds[i], h') && Abs(ds[i], h') == Abs(ds[i], h) {
      AbsKept(ds[i], h, h');
    }
  }

  /** What a live description mentions has a node. */
  lemma {:induction false} LiveAggs(d: DI, h: Heap, a: Agg)
    requires Live(d, h) && a in AggsIn(Abs(d, h))
    ensures exists id :: id in h && h[id].agg == a
  {
    if d.Node? {
      var i :| 0 <= i < |d.kids| && a in AggsIn(Abs(d, h).kids[i]);
      LiveAggs(d.kids[i], h, a);
    } else {
      assert d.Comp?;
    }
  }

  // -------------------------------------------------------------- replacing a placeholder

  function Subst(d: DI, p: Id, r: Id): DI {
    match d
    case Node(t, kids) => Node(t, seq(|kids|, i requires 0 <= i < |kids| => Subst(kids[i], p, r)))
    case Comp(id) => if id == p then Comp(r) else d
    case _ => d
  }

  function SubstAll(ds: seq<DI>, p: Id, r: Id): (s: seq<DI>)
    ensures |s| == |ds|
  {
    seq(|ds|, i requires 0 <= i < |ds| => Subst(ds[i], p, r))
  }

  function SubstNode(c: Composite, p: Id, r: Id): (d: Composite)
    ensures d.Temp? == c.Temp? && d.agg == c.agg
  {
    if c.Temp? then c else c.(elems := SubstAll(c.elems, p, r))
  }

  /** replaceTemporary: every use of node p becomes a use of the new node r, and p is gone. */
  function Replace(h: Heap, p: Id, r: Id, final: Composite): Heap {
    (map id | id in h && id != p :: SubstNode(h[id], p, r))[r := SubstNode(final, p, r)]
  }

  lemma {:induction false} SubstAbs(d: DI, h: Heap, h': Heap, p: Id, r: Id)
    requires Live(d, h) && p in h && r in h' && h'[r].agg == h[p].agg
    requires forall id | id in h && id != p :: id in h' && h'[id].agg == h[id].agg
    ensures Live(Subst(d, p, r), h') && Abs(Subst(d, p, r), h') == Abs(d, h)
  {
    if d.Node? {
      forall i | 0 <= i < |d.kids|
        ensures Live(Subst(d.kids[i], p, r), h') && Abs(Subst(d.kids[i], p, r), h') == Abs(d.kids[i], h)
      {
        SubstAbs(d.kids[i], h, h', p, r);
      }
    }
  }

  lemma SubstAllAbs(ds: seq<DI>, h: Heap, h': Heap, p: Id, r: Id)
    requires LiveAll(ds, h) && p in h && r in h' && h'[r].agg == h[p].agg
    requires forall id | id in h && id != p :: id in h' && h'[id].agg == h[id].agg
    ensures LiveAll(SubstAll(ds, p, r), h') && AbsAll(SubstAll(ds, p, r), h') == AbsAll(ds, h)
  {
    forall i | 0 <= i < |ds|
      ensures Live(Subst(ds[i], p, r), h') && Abs(Subst(ds[i], p, r), h') == Abs(ds[i], h)
    {
      SubstAbs(ds[i], h, h', p, r);
    }
  }

  /** Where p does not exist it is not referred to. */
  lemma {:induction false} SubstNothing(d: DI, h: Heap, p: Id, r: Id)
    requires Live(d, h) && p !in h
    ensures Subst(d, p, r) == d
  {
    if d.Node? {
      forall i | 0 <= i < |d.kids| ensures Subst(d.kids[i], p, r) == d.kids[i] {
        SubstNothing(d.kids[i], h, p, r);
      }
    }
  }
}

/**
  CreateTypeDescription and CreateCompositeType (ldc/gen/dibuilder.cpp): the calls recurse
  through cyclic aggregates, meet their own placeholders, and swap them for final nodes.
 */
module DebugComposites {
  import opened Options
  import opened FiniteSets
  import opened DebugTypes
  import opened DebugLayout

  /** The built log counts how often an aggregate's description was begun. */
  datatype State = State(nodeOf: map<Agg, Id>, heap: Heap, next: Id, built: multiset<Agg>)

  // ---------------------------------------------------------------------------- invariant

  /** Node and aggregate determine each other. */
  ghost predicate OneToOne(p: Program, s: State) {
    (forall a | a in s.nodeOf :: a in p && p[a].sized && s.nodeOf[a] in s.heap && s.heap[s.nodeOf[a]].agg == a)
    && (forall a: Agg :: s.built[a] == if a in s.nodeOf then 1 else 0)
    && (forall id | id in s.heap :: id < s.next && s.heap[id].agg in s.nodeOf && s.nodeOf[s.heap[id].agg] == id)
  }

  /** A final node refers only to existing nodes and lists exactly what its aggregate declares. */
  ghost predicate FinalRight(p: Program, c: Composite, h: Heap) {
    c.Final? ==>
      c.agg in p && DeclKnown(p, p[c.agg]) && LiveAll(c.elems, h) && AbsAll(c.elems, h) == Expected(p, c.agg)
  }

  ghost predicate FinalsRight(p: Program, h: Heap) {
    forall id | id in h :: FinalRight(p, h[id], h)
  }

  ghost predicate Inv(p: Program, s: State) { OneToOne(p, s) && FinalsRight(p, s.heap) }

  // --------------------------------------------------------------------- what is reachable

  ghost predicate ClosedUnder(p: Program, c: set<Agg>) {
    forall a | a in c && a in p && p[a].sized && DeclKnown(p, p[a]) :: AggsInAll(Expected(p, a)) <= c
  }

  /** In every set that contains start and, with an aggregate, all its members mention. */
  ghost predicate Needed(p: Program, start: set<Agg>, b: Agg) {
    forall c :: ClosedUnder(p, c) && start <= c ==> b in c
  }

  lemma NeededVia(p: Program, start: set<Agg>, a: Agg, b: Agg)
    requires Needed(p, start, a) && a in p && p[a].sized && DeclKnown(p, p[a])
    requires Needed(p, AggsInAll(Expected(p, a)), b)
    ensures Needed(p, start, b)
  {
    forall c | ClosedUnder(p, c) && start <= c ensures b in c {
      assert a in c;
    }
  }

  // ------------------------------------------------------------------------ what calls keep

  /** From s to t: nodes that existed are untouched, no placeholder is left over, new ones are needed. */
  ghost predicate Grown(p: Program, s: State, t: State, start: set<Agg>) {
    s.next <= t.next
    && (forall a | a in s.nodeOf :: a in t.nodeOf && t.nodeOf[a] == s.nodeOf[a])
    && (forall id | id in s.heap :: id in t.heap && t.heap[id] == s.heap[id])
    && (forall id | id in t.heap && t.heap[id].Temp? :: id in s.heap)
    && (forall a | a in t.nodeOf :: a in s.nodeOf || Needed(p, start, a))
  }

  lemma GrownSame(p: Program, s: State, start: set<Agg>)
    ensures Grown(p, s, s, start)
  {
  }

  lemma GrownTrans(p: Program, s: State, t: State, u: State, start1: set<Agg>, start2: set<Agg>, start: set<Agg>)
    requires Grown(p, s, t, start1) && Grown(p, t, u, start2) && start1 <= start && start2 <= start
    ensures Grown(p, s, u, start)
  {
    forall a | a in u.nodeOf ensures a in s.nodeOf || Needed(p, start, a) {
      if a !in s.nodeOf {
        if a in t.nodeOf { NeededMore(p, start1, start, a); } else { NeededMore(p, start2, start, a); }
      }
    }
  }

  lemma NeededMore(p: Program, start1: set<Agg>, start: set<Agg>, a: Agg)
    requires Needed(p, start1, a) && start1 <= start
    ensures Needed(p, start, a)
  {
  }

  /** A value held across a call still means the same. */
  lemma HeldValue(p: Program, d: DI, s: State, t: State, start: set<Agg>)
    requires Live(d, s.heap) && Grown(p, s, t, start)
    ensures Live(d, t.heap) && Abs(d, t.heap) == Abs(d, s.heap)
  {
    AbsKept(d, s.heap, t.heap);
  }

  lemma HeldValues(p: Program, ds: seq<DI>, s: State, t: State, start: set<Agg>)
    requires LiveAll(ds, s.heap) && Grown(p, s, t, start)
    ensures LiveAll(ds, t.heap) && AbsAll(ds, t.heap) == AbsAll(ds, s.heap)
  {
    AbsAllKept(ds, s.heap, t.heap);
  }

  ghost function Unbuilt(p: Program, s: State): nat { |p.Keys - s.nodeOf.Keys| }

  lemma UnbuiltShrinks(p: Program, s: State, t: State, start: set<Agg>)
    requires Grown(p, s, t, start)
    ensures Unbuilt(p, t) <= Unbuilt(p, s)
  {
    SubsetSize(p.Keys - t.nodeOf.Keys, p.Keys - s.nodeOf.Keys);
  }

  // -------------------------------------------------------------- opening and closing a node

  ghost function Opened(s: State, a: Agg): State {
    State(s.nodeOf[a := s.next], s.heap[s.next := Temp(a)], s.next + 1, s.built + multiset{a})
  }

  lemma FinalKept(p: Program, c: Composite, h: Heap, h': Heap)
    requires FinalRight(p, c, h) && SameOwners(h, h')
    ensures FinalRight(p, c, h')
  {
    hide Expected;
    if c.Final? { AbsAllKept(c.elems, h, h'); }
  }

  lemma OpenedInv(p: Program, s: State, a: Agg)
    requires Inv(p, s) && a in p && p[a].sized && a !in s.nodeOf
    ensures Inv(p, Opened(s, a)) && Unbuilt(p, Opened(s, a)) < Unbuilt(p, s)
    ensures SameOwners(s.heap, Opened(s, a).heap)
  {
    hide FinalRight, OneToOne, Unbuilt;
    var t := Opened(s, a);
    OpenedOneToOne(p, s, a);
    OpenedUnbuilt(p, s, a);
    forall id | id in t.heap ensures FinalRight(p, t.heap[id], t.heap) {
      if id == s.next {
        TempRight(p, t.heap[id], t.heap);
      } else {
        FinalKept(p, s.heap[id], s.heap, t.heap);
      }
    }
  }

  lemma OpenedOneToOne(p: Program, s: State, a: Agg)
    requires OneToOne(p, s) && a in p && p[a].sized && a !in s.nodeOf
    ensures OneToOne(p, Opened(s, a)) && SameOwners(s.heap, Opened(s, a).heap)
  {
  }

  lemma OpenedUnbuilt(p: Program, s: State, a: Agg)
    requires a in p && a !in s.nodeOf
    ensures Unbuilt(p, Opened(s, a)) < Unbuilt(p, s)
  {
    var x, y := p.Keys - s.nodeOf.Keys, p.Keys - Opened(s, a).nodeOf.Keys;
    assert y == x - {a} && a in x;
  }

  lemma TempRight(p: Program, c: Composite, h: Heap)
    requires c.Temp?
    ensures FinalRight(p, c, h)
  {
  }

  ghost function Closed(s: State, a: Agg, elems: seq<DI>): State
    requires a in s.nodeOf
  {
    State(s.nodeOf[a := s.next], Replace(s.heap, s.nodeOf[a], s.next, Final(a, elems)), s.next + 1, s.built)
  }

  lemma ClosedInv(p: Program, s: State, a: Agg, elems: seq<DI>)
    requires Inv(p, s) && a in s.nodeOf && a in p && DeclKnown(p, p[a])
    requires LiveAll(elems, s.heap) && AbsAll(elems, s.heap) == Expected(p, a)
    ensures Inv(p, Closed(s, a, elems))
  {
    var t := Closed(s, a, elems);
    var temp, final := s.nodeOf[a], s.next;
    assert forall id | id in s.heap && id != temp :: id in t.heap && t.heap[id].agg == s.heap[id].agg;
    forall id | id in t.heap ensures FinalRight(p, t.heap[id], t.heap) {
      if id == final {
        SubstAllAbs(elems, s.heap, t.heap, temp, final);
      } else {
        assert FinalRight(p, s.heap[id], s.heap);
        if t.heap[id].Final? { SubstAllAbs(s.heap[id].elems, s.heap, t.heap, temp, final); }
      }
    }
  }

  lemma NeededStart(p: Program, start: set<Agg>, a: Agg)
    requires a in start
    ensures Needed(p, start, a)
  {
  }

  lemma BuiltHeap(p: Program, s: State, t: State, a: Agg, elems: seq<DI>, start: set<Agg>)
    requires Inv(p, s) && a !in s.nodeOf
    requires Grown(p, Opened(s, a), t, start) && Inv(p, t)
    ensures a in t.nodeOf && t.nodeOf[a] == s.next
    ensures var u := Closed(t, a, elems);
      (forall id | id in s.heap :: id in u.heap && u.heap[id] == s.heap[id])
      && (forall id | id in u.heap && u.heap[id].Temp? :: id in s.heap)
  {
    hide FinalRight, Needed, SubstNode, OneToOne;
    var temp := s.next;
    var u := Closed(t, a, elems);
    forall id | id in s.heap ensures id in u.heap && u.heap[id] == s.heap[id] {
      IdsBelowNext(p, s, id);
      assert Opened(s, a).heap[id] == s.heap[id] && t.heap[id] == s.heap[id];
      IdsBelowNext(p, t, id);
      UntouchedNode(p, s.heap[id], s.heap, temp, t.next) by {
        if temp in s.heap { IdsBelowNext(p, s, temp); }
      }
    }
    assert t.next !in t.heap by { if t.next in t.heap { IdsBelowNext(p, t, t.next); } }
  }

  lemma IdsBelowNext(p: Program, s: State, id: Id)
    requires Inv(p, s) && id in s.heap
    ensures id < s.next
  {
  }

  /** From before a was opened to after it is closed. */
  lemma BuiltGrown(p: Program, s: State, t: State, a: Agg, elems: seq<DI>, start: set<Agg>)
    requires Inv(p, s) && a in p && p[a].sized && DeclKnown(p, p[a]) && a !in s.nodeOf && a in start
    requires Grown(p, Opened(s, a), t, AggsInAll(Expected(p, a))) && Inv(p, t)
    ensures Grown(p, s, Closed(t, a, elems), start)
  {
    hide Needed, Expected, Inv, Replace;
    NeededStart(p, start, a);
    var u := Closed(t, a, elems);
    BuiltHeap(p, s, t, a, elems, AggsInAll(Expected(p, a)));
    assert forall b | b in s.nodeOf :: b in Opened(s, a).nodeOf;
    forall b | b in u.nodeOf ensures b in s.nodeOf || Needed(p, start, b) {
      if b !in s.nodeOf && b != a {
        assert b in t.nodeOf && b !in Opened(s, a).nodeOf;
        NeededVia(p, start, a, b);
      }
    }
  }

  lemma UntouchedNode(p: Program, c: Composite, h: Heap, temp: Id, final: Id)
    requires FinalRight(p, c, h) && temp !in h
    ensures SubstNode(c, temp, final) == c
  {
    if c.Final? {
      forall i | 0 <= i < |c.elems| ensures Subst(c.elems[i], temp, final) == c.elems[i] {
        SubstNothing(c.elems[i], h, temp, final);
      }
      assert SubstAll(c.elems, temp, final) == c.elems;
    }
  }

  // -------------------------------------------------------------------- what calls deliver

  /** The call from s to t delivered d, which is what spec says and refers to existing nodes only. */
  ghost predicate Described(p: Program, s: State, t: State, d: DI, spec: DI) {
    Inv(p, t) && Grown(p, s, t, AggsIn(spec)) && Live(d, t.heap) && Abs(d, t.heap) == spec
  }

  ghost predicate DescribedAll(p: Program, s: State, t: State, ds: seq<DI>, specs: seq<DI>) {
    Inv(p, t) && Grown(p, s, t, AggsInAll(specs)) && LiveAll(ds, t.heap) && AbsAll(ds, t.heap) == specs
  }

  lemma NoneDescribed(p: Program, s: State)
    requires Inv(p, s)
    ensures DescribedAll(p, s, s, [], [])
  {
  }

  lemma LeafDescribed(p: Program, s: State, d: DI)
    requires Inv(p, s) && (d == Null || (d.Node? && d.kids == []))
    ensures Described(p, s, s, d, d)
  {
    GrownSame(p, s, AggsIn(d));
  }

  lemma AggsInAllAppend(a: seq<DI>, b: seq<DI>)
    ensures AggsInAll(a) <= AggsInAll(a + b) && AggsInAll(b) <= AggsInAll(a + b)
  {
    forall x | x in AggsInAll(a) ensures x in AggsInAll(a + b) {
      var i :| 0 <= i < |a| && x in AggsIn(a[i]);
      assert (a + b)[i] == a[i];
    }
    forall x | x in AggsInAll(b) ensures x in AggsInAll(a + b) {
      var i :| 0 <= i < |b| && x in AggsIn(b[i]);
      assert (a + b)[|a| + i] == b[i];
    }
  }

  lemma AllAppend(p: Program, s: State, t: State, u: State, ds: seq<DI>, A: seq<DI>, es: seq<DI>, B: seq<DI>)
    requires DescribedAll(p, s, t, ds, A) && DescribedAll(p, t, u, es, B)
    ensures DescribedAll(p, s, u, ds + es, A + B)
  {
    hide Inv, Grown, AggsInAll, Live, Abs;
    AggsInAllAppend(A, B);
    GrownTrans(p, s, t, u, AggsInAll(A), AggsInAll(B), AggsInAll(A + B));
    HeldValues(p, ds, t, u, AggsInAll(B));
    assert AbsAll(ds + es, u.heap) == AbsAll(ds, u.heap) + AbsAll(es, u.heap);
  }

  lemma OneDescribed(p: Program, s: State, t: State, d: DI, spec: DI)
    requires Described(p, s, t, d, spec)
    ensures DescribedAll(p, s, t, [d], [spec])
  {
    hide Inv, Live, Abs, AggsIn, Grown;
    assert AggsInAll([spec]) == AggsIn(spec) by {
      assert [spec][0] == spec;
    }
  }

  lemma AllPush(p: Program, s: State, t: State, u: State, ds: seq<DI>, A: seq<DI>, d: DI, spec: DI)
    requires DescribedAll(p, s, t, ds, A) && Described(p, t, u, d, spec)
    ensures DescribedAll(p, s, u, ds + [d], A + [spec])
  {
    hide DescribedAll, Described;
    OneDescribed(p, t, u, d, spec);
    AllAppend(p, s, t, u, ds, A, [d], [spec]);
  }

  lemma NodeDescribed(p: Program, s: State, t: State, l: Label, ds: seq<DI>, specs: seq<DI>)
    requires DescribedAll(p, s, t, ds, specs)
    ensures Described(p, s, t, Node(l, ds), Node(l, specs))
  {
    hide Inv, Grown;
    assert AggsIn(Node(l, specs)) == AggsInAll(specs);
    assert Abs(Node(l, ds), t.heap).kids == AbsAll(ds, t.heap);
  }

  /** One child. */
  lemma Wrapped(p: Program, s: State, t: State, l: Label, d: DI, spec: DI)
    requires Described(p, s, t, d, spec)
    ensures Described(p, s, t, Node(l, [d]), Node(l, [spec]))
  {
    hide DescribedAll, Described;
    OneDescribed(p, s, t, d, spec);
    NodeDescribed(p, s, t, l, [d], [spec]);
  }

  /** Two children. */
  lemma Paired(p: Program, s: State, t: State, u: State, l: Label, d: DI, spec: DI, e: DI, spec2: DI)
    requires Described(p, s, t, d, spec) && Described(p, t, u, e, spec2)
    ensures Described(p, s, u, Node(l, [d, e]), Node(l, [spec, spec2]))
  {
    hide DescribedAll, Described;
    OneDescribed(p, s, t, d, spec);
    AllPush(p, s, t, u, [d], [spec], e, spec2);
    assert [d] + [e] == [d, e] && [spec] + [spec2] == [spec, spec2];
    NodeDescribed(p, s, u, l, [d, e], [spec, spec2]);
  }

  lemma FoundDescribed(p: Program, s: State, a: Agg)
    requires Inv(p, s) && a in s.nodeOf
    ensures a in p && Described(p, s, s, Comp(s.nodeOf[a]), AggDesc(p, a)) && AggDesc(p, a) == AggRef(a)
  {
    GrownSame(p, s, {a});
  }

  lemma HeldDescribed(p: Program, s: State, t: State, d: DI, spec: DI, start: set<Agg>)
    requires Live(d, s.heap) && Abs(d, s.heap) == spec && Grown(p, s, t, start) && Inv(p, t)
    ensures Described(p, t, t, d, spec)
  {
    HeldValue(p, d, s, t, start);
    GrownSame(p, t, AggsIn(spec));
  }

  lemma DescribedFacts(p: Program, s: State, t: State, d: DI, spec: DI)
    requires Described(p, s, t, d, spec)
    ensures Inv(p, t) && Unbuilt(p, t) <= Unbuilt(p, s)
  {
    UnbuiltShrinks(p, s, t, AggsIn(spec));
  }

  lemma AllFacts(p: Program, s: State, t: State, ds: seq<DI>, specs: seq<DI>)
    requires DescribedAll(p, s, t, ds, specs)
    ensures Inv(p, t) && Unbuilt(p, t) <= Unbuilt(p, s)
  {
    UnbuiltShrinks(p, s, t, AggsInAll(specs));
  }

  /** A null type behind a reference is described as ubyte. */
  lemma UByteDescribed(p: Program, s: State, t: State, u: State, spec: DI, d: DI)
    requires Described(p, s, t, Null, spec) && Described(p, t, u, d, Desc(p, UByte, false))
    ensures spec == Null && Described(p, s, u, d, Leaf(LBasic(0)))
  {
    hide Inv, Grown;
    assert Desc(p, UByte, false) == Leaf(LBasic(0));
    assert AggsIn(Null) == {} && AggsIn(Leaf(LBasic(0))) == {};
    GrownTrans(p, s, t, u, {}, {}, {});
  }

  lemma StillDescribed(p: Program, s: State, t: State, d: DI, spec: DI, e: DI, spec2: DI)
    requires Described(p, s, s, d, spec) && Described(p, s, t, e, spec2)
    ensures Described(p, t, t, d, spec)
  {
    HeldDescribed(p, s, t, d, spec, AggsIn(spec2));
  }

  /** From the description of a's members to a's finished node. */
  lemma BuiltDescribed(p: Program, s: State, t: State, a: Agg, elems: seq<DI>)
    requires Inv(p, s) && a in p && p[a].sized && DeclKnown(p, p[a]) && a !in s.nodeOf
    requires DescribedAll(p, Opened(s, a), t, elems, Expected(p, a))
    ensures a in t.nodeOf && Described(p, s, Closed(t, a, elems), Comp(t.next), AggRef(a))
  {
    hide Expected, LiveAll, AbsAll, Inv, Grown, Closed, Opened, AggsInAll, AggsIn, Abs, Live;
    OpenedKeeps(p, s, a, t, AggsInAll(Expected(p, a)));
    ClosedInv(p, t, a, elems);
    BuiltGrown(p, s, t, a, elems, {a});
    ClosedNode(t, a, elems);
  }

  lemma OpenedKeeps(p: Program, s: State, a: Agg, t: State, start: set<Agg>)
    requires Grown(p, Opened(s, a), t, start)
    ensures a in t.nodeOf
  {
    assert a in Opened(s, a).nodeOf;
  }

  lemma ClosedNode(t: State, a: Agg, elems: seq<DI>)
    requires a in t.nodeOf
    ensures var u := Closed(t, a, elems);
      Live(Comp(t.next), u.heap) && Abs(Comp(t.next), u.heap) == AggRef(a) && AggsIn(AggRef(a)) == {a}
  {
  }

  lemma NullDescribed(p: Program, s: State, t: State, d: DI, spec: DI)
    requires Described(p, s, t, d, spec)
    ensures d == Null <==> spec == Null
    ensures Inv(p, t) && Unbuilt(p, t) <= Unbuilt(p, s)
  {
    DescribedFacts(p, s, t, d, spec);
  }

  lemma AllKeepsNode(p: Program, s: State, t: State, ds: seq<DI>, specs: seq<DI>, a: Agg)
    requires DescribedAll(p, s, t, ds, specs) && a in s.nodeOf
    ensures a in t.nodeOf
  {
  }

  lemma NoBases(p: Program, a: Agg)
    requires a in p && DeclKnown(p, p[a])
    ensures p[a].isInterface ==> BaseDescs(p, a) == []
  {
  }

  /** No description is under way. */
  ghost predicate Settled(s: State) { forall id | id in s.heap :: s.heap[id].Final? }

  lemma SettledClosed(p: Program, s: State)
    requires Inv(p, s) && Settled(s)
    ensures ClosedUnder(p, s.nodeOf.Keys)
  {
    forall a | a in s.nodeOf && a in p && p[a].sized && DeclKnown(p, p[a])
      ensures AggsInAll(Expected(p, a)) <= s.nodeOf.Keys
    {
      var c := s.heap[s.nodeOf[a]];
      assert FinalRight(p, c, s.heap);
      LiveAllAggs(p, s, c.elems);
    }
  }

  lemma LiveAllAggs(p: Program, s: State, ds: seq<DI>)
    requires OneToOne(p, s) && LiveAll(ds, s.heap)
    ensures AggsInAll(AbsAll(ds, s.heap)) <= s.nodeOf.Keys
  {
    forall b | b in AggsInAll(AbsAll(ds, s.heap)) ensures b in s.nodeOf {
      var i :| 0 <= i < |ds| && b in AggsIn(AbsAll(ds, s.heap)[i]);
      LiveAggs(ds[i], s.heap, b);
    }
  }

  class DIBuilder {
    const program: Program
    var nodeOf: map<Agg, Id>
    var heap: Heap
    var nextId: Id
    ghost var built: multiset<Agg>

    ghost function St(): State
      reads this
    {
      State(nodeOf, heap, nextId, built)
    }

    ghost predicate Valid()
      reads this
    {
      WellFormed(program) && Inv(program, St())
    }

    constructor (program: Program)
      requires WellFormed(program)
      ensures Valid() && this.program == program && nodeOf == map[] && heap == map[] && built == multiset{}
    {
      this.program := program;
      nodeOf, heap, nextId, built := map[], map[], 0, multiset{};
    }

    method CreateTypeDescription(t: Ty, voidToUbyte: bool) returns (d: DI)
      requires Valid() && Known(program, t)
      modifies this
      ensures Valid() && Described(program, old(St()), St(), d, Desc(program, t, voidToUbyte))
      decreases Unbuilt(program, St()), 1, Weight(t), 1
    {
      var t' := if voidToUbyte && BaseType(t).Void? then UByte else t;
      d := CreatePlain(t');
    }

    method CreatePlain(t: Ty) returns (d: DI)
      requires Valid() && Known(program, t)
      modifies this
      ensures Valid() && Described(program, old(St()), St(), d, DescPlain(program, t))
      decreases Unbuilt(program, St()), 1, Weight(t), 0
    {
      ghost var s := St();
      match t
      case Void => d := Null; LeafDescribed(program, s, d);
      case Noreturn => d := Null; LeafDescribed(program, s, d);
      case NullTy =>
        d := CreateTypeDescription(Void, false);
        Wrapped(program, s, St(), LPointer, d, Desc(program, Void, false));
        d := Node(LPointer, [d]);
      case Basic(n, _) => d := Leaf(LBasic(n)); LeafDescribed(program, s, d);
      case OpaqueEnum(n) => d := Leaf(LUnspecified(n)); LeafDescribed(program, s, d);
      case Enum(n, special, m) => d := CreateEnumType(n, special, m);
      case Vector(n, e) =>
        d := CreateTypeDescription(e, true);
        Wrapped(program, s, St(), LVector(n), d, Desc(program, e, true));
        d := Node(LVector(n), [d]);
      case Pointer(n) =>
        d := CreateTypeDescription(n, true);
        Wrapped(program, s, St(), LPointer, d, Desc(program, n, true));
        d := Node(LPointer, [d]);
      case DArray(n) => d := CreateArrayType(n);
      case SArray(_, _) => d := CreateSArrayType(t);
      case AArray(k, n) => d := CreateAArrayType(k, n);
      case Struct(a) => d := CreateCompositeType(a);
      case Class(a) =>
        d := CreateCompositeType(a);
        Wrapped(program, s, St(), LPointer, d, AggDesc(program, a));
        d := Node(LPointer, [d]);
      case Function(r, ps) =>
        DescOfFunction(program, r, ps);
        d := CreateFunctionType(r, NoContext, ps);
      case Delegate(f) => d := CreateDelegateType(f);
    }

    method CreateEnumType(n: nat, special: bool, m: Ty) returns (d: DI)
      requires Valid() && Known(program, m)
      modifies this
      ensures Valid() && Described(program, old(St()), St(), d, DescPlain(program, Enum(n, special, m)))
      decreases Unbuilt(program, St()), 1, Weight(m), 3
    {
      hide Described, Inv, Desc, DescPlain, Unbuilt, Weight;
      ghost var s := St();
      var tb := BaseType(m);
      DescOfEnum(program, n, special, m);
      if special {
        d := CreateTypeDescription(m, false);
      } else if !(tb.Basic? && tb.integral) {
        d := CreateTypeDescription(tb, false);
        Wrapped(program, s, St(), LTypedef, d, Desc(program, tb, false));
        d := Node(LTypedef, [d]);
      } else {
        d := CreateTypeDescription(m, false);
        Wrapped(program, s, St(), LEnumeration(n), d, Desc(program, m, false));
        d := Node(LEnumeration(n), [d]);
      }
    }

    method CreateMemberType(t: Ty) returns (d: DI)
      requires Valid() && Known(program, t)
      modifies this
      ensures Valid() && Described(program, old(St()), St(), d, Member(Desc(program, t, false)))
      decreases Unbuilt(program, St()), 1, Weight(t), 2
    {
      hide Described, Inv, Desc, DescPlain, Unbuilt;
      var basetype := CreateTypeDescription(t, false);
      Wrapped(program, old(St()), St(), LMember, basetype, Desc(program, t, false));
      d := Member(basetype);
    }

    method CreateArrayType(n: Ty) returns (d: DI)
      requires Valid() && Known(program, n)
      modifies this
      ensures Valid() && Described(program, old(St()), St(), d, DescPlain(program, DArray(n)))
      decreases Unbuilt(program, St()), 1, Weight(n) + 2, 0
    {
      hide Described, Inv, Desc, DescPlain, Unbuilt;
      DescOfDArray(program, n);
      ghost var s := St();
      var length := CreateMemberType(SizeT);
      ghost var s1 := St();
      DescribedFacts(program, s, s1, length, Member(Desc(program, SizeT, false)));
      var ptr := CreateMemberType(Pointer(n));
      Paired(program, s, s1, St(), LSlice, length, Member(Desc(program, SizeT, false)),
        ptr, Member(Desc(program, Pointer(n), false)));
      d := Node(LSlice, [length, ptr]);
    }

    method CreateDelegateType(f: Ty) returns (d: DI)
      requires Valid() && Known(program, f)
      modifies this
      ensures Valid() && Described(program, old(St()), St(), d, DescPlain(program, Delegate(f)))
      decreases Unbuilt(program, St()), 1, Weight(f) + 2, 0
    {
      hide Described, Inv, Desc, DescPlain, Unbuilt;
      DescOfDelegate(program, f);
      ghost var s := St();
      var ptr := CreateMemberType(Pointer(Void));
      ghost var s1 := St();
      DescribedFacts(program, s, s1, ptr, Member(Desc(program, Pointer(Void), false)));
      var funcptr := CreateMemberType(Pointer(f));
      Paired(program, s, s1, St(), LDelegate, ptr, Member(Desc(program, Pointer(Void), false)),
        funcptr, Member(Desc(program, Pointer(f), false)));
      d := Node(LDelegate, [ptr, funcptr]);
    }

    method CreateSArrayType(t: Ty) returns (d: DI)
      requires Valid() && Known(program, t) && t.SArray?
      modifies this
      ensures Valid() && Described(program, old(St()), St(), d, DescPlain(program, t))
      decreases Unbuilt(program, St()), 1, Weight(Elem(t)), 3
    {
      hide Described, Inv, Desc, DescPlain, Unbuilt, Known, Weight;
      DescOfSArray(program, t);
      ghost var s := St();
      var te, subscripts := t, [];
      while te.SArray?
        invariant subscripts + Dims(te) == Dims(t) && Elem(te) == Elem(t)
        decreases te
      {
        subscripts := subscripts + [te.dim];
        te := te.next;
      }
      assert subscripts == Dims(t);
      d := CreateTypeDescription(te, true);
      Wrapped(program, s, St(), LArray(subscripts), d, Desc(program, te, true));
      d := Node(LArray(subscripts), [d]);
    }

    /** The key's description is held while the value's is made. */
    method CreateAArrayType(k: Ty, n: Ty) returns (d: DI)
      requires Valid() && Known(program, k) && Known(program, n)
      modifies this
      ensures Valid() && Described(program, old(St()), St(), d, DescPlain(program, AArray(k, n)))
      decreases Unbuilt(program, St()), 1, Weight(k) + Weight(n) + 2, 0
    {
      hide Described, DescribedAll, Inv, Desc, DescPlain, Unbuilt;
      DescOfAArray(program, k, n);
      ghost var s := St();
      var tindex := CreateTypeDescription(k, false);
      ghost var s1, dk := St(), Desc(program, k, false);
      DescribedFacts(program, s, s1, tindex, dk);
      Wrapped(program, s, s1, LTypedef, tindex, dk);
      var tvalue := CreateTypeDescription(n, false);
      ghost var s2, dn := St(), Desc(program, n, false);
      DescribedFacts(program, s1, s2, tvalue, dn);
      Wrapped(program, s1, s2, LTypedef, tvalue, dn);
      var ptr := CreateMemberType(Pointer(Void));
      ghost var dp := Member(Desc(program, Pointer(Void), false));
      var x, y := Node(LTypedef, [tindex]), Node(LTypedef, [tvalue]);
      OneDescribed(program, s, s1, x, Node(LTypedef, [dk]));
      AllPush(program, s, s1, s2, [x], [Node(LTypedef, [dk])], y, Node(LTypedef, [dn]));
      AllPush(program, s, s2, St(), [x] + [y], [Node(LTypedef, [dk])] + [Node(LTypedef, [dn])], ptr, dp);
      d := Node(LAssoc, [x] + [y] + [ptr]);
      NodeDescribed(program, s, St(), LAssoc, [x] + [y] + [ptr], [Node(LTypedef, [dk])] + [Node(LTypedef, [dn])] + [dp]);
      assert [Node(LTypedef, [dk])] + [Node(LTypedef, [dn])] + [dp] == [Node(LTypedef, [dk]), Node(LTypedef, [dn]), dp];
    }

    method PushParam(t: Ty, isRef: bool) returns (d: DI)
      requires Valid() && Known(program, t)
      modifies this
      ensures Valid() && Described(program, old(St()), St(), d, ParamDesc(Desc(program, t, false), isRef))
      decreases Unbuilt(program, St()), 1, Weight(t), 2
    {
      hide Described, Inv, Desc, DescPlain, Unbuilt;
      ghost var s := St();
      d := CreateTypeDescription(t, false);
      if isRef {
        ghost var spec := Desc(program, t, false);
        ghost var s1 := St();
        NullDescribed(program, s, s1, d, spec);
        if d == Null {
          d := CreateTypeDescription(UByte, false);
          UByteDescribed(program, s, s1, St(), spec, d);
          spec := Leaf(LBasic(0));
        }
        Wrapped(program, s, St(), LReference, d, spec);
        d := Node(LReference, [d]);
      }
    }

    method PushContext(c: Context) returns (params: seq<DI>)
      requires Valid() && (c.ThisOf? ==> c.agg in program)
      modifies this
      ensures Valid() && DescribedAll(program, old(St()), St(), params, ContextDescs(program, c))
      decreases Unbuilt(program, St()), 1, Weight(UByte), 4
    {
      hide Described, DescribedAll, Inv, Desc, Unbuilt;
      ghost var s := St();
      NoneDescribed(program, s);
      if c.NoContext? { return []; }
      var pointeeType;
      ghost var spec;
      if c.ThisOf? {
        pointeeType := CreateCompositeType(c.agg);
        spec := AggDesc(program, c.agg);
      } else {
        pointeeType := CreateTypeDescription(UByte, false);
        spec := Desc(program, UByte, false);
      }
      Wrapped(program, s, St(), LPointerReference, pointeeType, spec);
      Wrapped(program, s, St(), LObjectPointer, Node(LPointerReference, [pointeeType]), Node(LPointerReference, [spec]));
      OneDescribed(program, s, St(), ObjectPointer(pointeeType), ObjectPointer(spec));
      params := [ObjectPointer(pointeeType)];
    }

    method PushParams(ps: Params) returns (params: seq<DI>)
      requires Valid() && KnownParams(program, ps)
      modifies this
      ensures Valid() && DescribedAll(program, old(St()), St(), params, ParamDescs(program, ps))
      decreases Unbuilt(program, St()), 1, SumWeight(ps), 5
    {
      hide Described, DescribedAll, Inv, Desc, DescPlain, Unbuilt;
      ghost var s, specs := St(), [];
      NoneDescribed(program, s);
      var rest := ps;
      params := [];
      while rest.More?
        invariant Valid() && DescribedAll(program, s, St(), params, specs) && Unbuilt(program, St()) <= Unbuilt(program, s)
        invariant KnownParams(program, rest) && SumWeight(rest) <= SumWeight(ps)
        invariant specs + ParamDescs(program, rest) == ParamDescs(program, ps)
        decreases rest
      {
        ghost var s1 := St();
        var p := PushParam(rest.first.ty, rest.first.isRef);
        ghost var spec := ParamDesc(Desc(program, rest.first.ty, false), rest.first.isRef);
        AllPush(program, s, s1, St(), params, specs, p, spec);
        AllFacts(program, s, St(), params + [p], specs + [spec]);
        params, specs, rest := params + [p], specs + [spec], rest.rest;
      }
      assert specs == ParamDescs(program, ps);
    }

    /** Return value, implicit context, parameters. */
    method CreateFunctionType(r: Param, c: Context, ps: Params) returns (d: DI)
      requires Valid() && Known(program, r.ty) && KnownParams(program, ps) && (c.ThisOf? ==> c.agg in program)
      modifies this
      ensures Valid() && Described(program, old(St()), St(), d, FunctionDesc(program, r, c, ps))
      decreases Unbuilt(program, St()), 1, Weight(r.ty) + SumWeight(ps) + 1, 0
    {
      hide Described, DescribedAll, Inv, Desc, DescPlain, Unbuilt, ContextDescs, ParamDescs, ParamDesc;
      ghost var s := St();
      var ret := PushParam(r.ty, r.isRef);
      ghost var s1, first := St(), ParamDesc(Desc(program, r.ty, false), r.isRef);
      OneDescribed(program, s, s1, ret, first);
      AllFacts(program, s, s1, [ret], [first]);
      var context := PushContext(c);
      ghost var s2 := St();
      AllAppend(program, s, s1, s2, [ret], [first], context, ContextDescs(program, c));
      AllFacts(program, s, s2, [ret] + context, [first] + ContextDescs(program, c));
      var params := PushParams(ps);
      AllAppend(program, s, s2, St(), [ret] + context, [first] + ContextDescs(program, c), params, ParamDescs(program, ps));
      d := Node(LFunction, [ret] + context + params);
      NodeDescribed(program, s, St(), LFunction, [ret] + context + params,
        [first] + ContextDescs(program, c) + ParamDescs(program, ps));
    }

    method AddFields(fields: seq<Ty>) returns (elems: seq<DI>)
      requires Valid() && forall i :: 0 <= i < |fields| ==> Known(program, fields[i])
      modifies this
      ensures Valid() && DescribedAll(program, old(St()), St(), elems, FieldDescs(program, fields))
      decreases Unbuilt(program, St()), 2, 0, 0
    {
      hide Described, DescribedAll, Inv, Desc, DescPlain, Unbuilt;
      ghost var s := St();
      elems := [];
      NoneDescribed(program, s);
      for i := 0 to |fields|
        invariant Valid() && DescribedAll(program, s, St(), elems, FieldDescs(program, fields[..i]))
        invariant Unbuilt(program, St()) <= Unbuilt(program, s)
      {
        var vd := fields[i];
        FieldDescsStep(program, fields, i);
        if !BaseType(vd).Noreturn? {
          ghost var s1, was := St(), FieldDescs(program, fields[..i]);
          var elem := CreateMemberType(vd);
          AllPush(program, s, s1, St(), elems, was, elem, Member(Desc(program, vd, false)));
          elems := elems + [elem];
          AllFacts(program, s, St(), elems, was + [Member(Desc(program, vd, false))]);
        }
      }
      assert fields[..|fields|] == fields;
    }

    method AddStaticMembers(a: Agg, statics: seq<Ty>) returns (elems: seq<DI>)
      requires Valid() && a in nodeOf && forall i :: 0 <= i < |statics| ==> Known(program, statics[i])
      modifies this
      ensures Valid() && DescribedAll(program, old(St()), St(), elems, StaticDescs(program, a, statics))
      decreases Unbuilt(program, St()), 2, 0, 0
    {
      hide Described, DescribedAll, Inv, Desc, DescPlain, Unbuilt;
      ghost var s := St();
      elems := [];
      NoneDescribed(program, s);
      FoundDescribed(program, s, a);
      var scope := CreateCompositeType(a);
      for i := 0 to |statics|
        invariant Valid() && DescribedAll(program, s, St(), elems, StaticDescs(program, a, statics[..i]))
        invariant Described(program, St(), St(), scope, AggRef(a))
        invariant Unbuilt(program, St()) <= Unbuilt(program, s)
      {
        var vd := statics[i];
        StaticDescsStep(program, a, statics, i);
        if !BaseType(vd).Noreturn? {
          ghost var s1, was := St(), StaticDescs(program, a, statics[..i]);
          var t := CreateTypeDescription(vd, false);
          ghost var dt := Desc(program, vd, false);
          StillDescribed(program, s1, St(), scope, AggRef(a), t, dt);
          Paired(program, s1, St(), St(), LStaticMember, t, dt, scope, AggRef(a));
          var elem := Node(LStaticMember, [t, scope]);
          AllPush(program, s, s1, St(), elems, was, elem, Node(LStaticMember, [dt, AggRef(a)]));
          elems := elems + [elem];
          AllFacts(program, s, St(), elems, was + [Node(LStaticMember, [dt, AggRef(a)])]);
        }
      }
      assert statics[..|statics|] == statics;
    }

    method AddBase(a: Agg) returns (elems: seq<DI>)
      requires Valid() && a in nodeOf && a in program && !program[a].isInterface
      modifies this
      ensures Valid() && DescribedAll(program, old(St()), St(), elems, BaseDescs(program, a))
      decreases Unbuilt(program, St()), 2, 0, 0
    {
      hide Described, DescribedAll, Inv;
      ghost var s := St();
      elems := [];
      NoneDescribed(program, s);
      if program[a].base.Some? {
        FoundDescribed(program, s, a);
        var this_ := Comp(nodeOf[a]);
        ghost var db := AggDesc(program, program[a].base.value);
        var derivedFrom := CreateCompositeType(program[a].base.value);
        Paired(program, s, s, St(), LInheritance, this_, AggRef(a), derivedFrom, db);
        var dt := Node(LInheritance, [this_, derivedFrom]);
        OneDescribed(program, s, St(), dt, Node(LInheritance, [AggRef(a), db]));
        elems := [dt];
      }
    }

    method AddElements(a: Agg) returns (elems: seq<DI>)
      requires Valid() && a in nodeOf && a in program
      modifies this
      ensures Valid() && DescribedAll(program, old(St()), St(), elems, Expected(program, a))
      decreases Unbuilt(program, St()), 3, 0, 0
    {
      hide Described, DescribedAll, Inv, BaseDescs, FieldDescs, StaticDescs, Unbuilt;
      ghost var s, specs := St(), [];
      elems := [];
      NoneDescribed(program, s);
      assert DeclKnown(program, program[a]);
      NoBases(program, a);
      if !program[a].isInterface {
        elems := AddBase(a);
        ghost var s1, bases := St(), BaseDescs(program, a);
        AllFacts(program, s, s1, elems, bases);
        var fields := AddFields(program[a].fields);
        AllAppend(program, s, s1, St(), elems, bases, fields, FieldDescs(program, program[a].fields));
        elems, specs := elems + fields, bases + FieldDescs(program, program[a].fields);
      }
      AllFacts(program, s, St(), elems, specs);
      AllKeepsNode(program, s, St(), elems, specs, a);
      ghost var s2 := St();
      var statics := AddStaticMembers(a, program[a].statics);
      AllAppend(program, s, s2, St(), elems, specs, statics, StaticDescs(program, a, program[a].statics));
      elems := elems + statics;
      assert Expected(program, a) == specs + StaticDescs(program, a, program[a].statics);
      AllFacts(program, s, St(), elems, Expected(program, a));
    }

    method CreateCompositeType(a: Agg) returns (d: DI)
      requires Valid() && a in program
      modifies this
      ensures Valid() && Described(program, old(St()), St(), d, AggDesc(program, a))
      ensures a in old(nodeOf) ==> St() == old(St()) && d == Comp(nodeOf[a])
      decreases Unbuilt(program, St()), 0, 0, 0
    {
      hide Described, DescribedAll, Inv, Unbuilt, Replace, Expected;
      ghost var s := St();
      if a in nodeOf {
        FoundDescribed(program, s, a);
        return Comp(nodeOf[a]);
      }
      if !program[a].sized {
        d := Leaf(LUnspecifiedAgg(a));
        LeafDescribed(program, s, d);
        return;
      }
      OpenedInv(program, s, a);
      built := built + multiset{a};
      nodeOf, heap, nextId := nodeOf[a := nextId], heap[nextId := Temp(a)], nextId + 1;
      assert St() == Opened(s, a);
      var elems := AddElements(a);
      BuiltDescribed(program, s, St(), a, elems);
      nodeOf, heap, nextId :=
        nodeOf[a := nextId], Replace(heap, nodeOf[a], nextId, Final(a, elems)), nextId + 1;
      d := Comp(nodeOf[a]);
      DescribedFacts(program, s, St(), d, AggRef(a));
    }

    /**
      An outermost call.  It terminates on every program, cyclic or not; no placeholder is
      left, so every node it made is final, refers to existing nodes only and lists what its
      aggregate declares; every aggregate was begun once; and the aggregates that have a node
      are those that had one and the least set that contains the type's and, with each
      aggregate, those its members mention.
     */
    method Describe(t: Ty) returns (d: DI)
      requires Valid() && Known(program, t) && Settled(St())
      modifies this
      ensures Valid() && Settled(St())
      ensures Live(d, heap) && Abs(d, heap) == Desc(program, t, false) && Cells(Abs(d, heap)) == Layout(program, t)
      ensures forall a | a in nodeOf :: nodeOf[a] in heap && ReadsAs(program, heap[nodeOf[a]], heap)
      ensures forall a | a in nodeOf ::
        a in program && nodeOf[a] in heap && FinalRight(program, heap[nodeOf[a]], heap) && heap[nodeOf[a]].agg == a
      ensures forall a: Agg :: built[a] <= 1
      ensures ClosedUnder(program, nodeOf.Keys) && AggsIn(Desc(program, t, false)) <= nodeOf.Keys
      ensures forall c :: ClosedUnder(program, c) && AggsIn(Desc(program, t, false)) <= c ==>
        nodeOf.Keys <= old(nodeOf.Keys) + c
    {
      hide Desc, Abs, Live, AggsIn, FinalRight, ClosedUnder, Cells, Layout, ReadsAs, AbsAll;
      ghost var spec := Desc(program, t, false);
      DescLayout(program, t, false);
      d := CreateTypeDescription(t, false);
      SettledClosed(program, St());
      DescribedAggs(program, St(), d);
      forall a | a in nodeOf ensures nodeOf[a] in heap && ReadsAs(program, heap[nodeOf[a]], heap) {
        NodeReads(program, St(), a);
      }
    }
  }

  /** A node says of the objects of its aggregate, and of its static members, what they occupy. */
  ghost predicate ReadsAs(p: Program, c: Composite, h: Heap) {
    && c.Final? && c.agg in p && DeclKnown(p, p[c.agg])
    && ObjectCells(AbsAll(c.elems, h)) == ObjectLayout(p, c.agg)
    && StaticCells(AbsAll(c.elems, h)) == StaticsLayout(p, p[c.agg].statics)
  }

  lemma NodeReads(p: Program, s: State, a: Agg)
    requires Inv(p, s) && Settled(s) && a in s.nodeOf
    ensures s.nodeOf[a] in s.heap && ReadsAs(p, s.heap[s.nodeOf[a]], s.heap)
  {
    hide AbsAll, ObjectCells, StaticCells, ObjectLayout, Expected, LiveAll;
    var c := s.heap[s.nodeOf[a]];
    assert FinalRight(p, c, s.heap);
    ExpectedLayout(p, c.agg);
  }

  lemma DescribedAggs(p: Program, s: State, d: DI)
    requires OneToOne(p, s) && Live(d, s.heap)
    ensures AggsIn(Abs(d, s.heap)) <= s.nodeOf.Keys
  {
    forall b | b in AggsIn(Abs(d, s.heap)) ensures b in s.nodeOf {
      LiveAggs(d, s.heap, b);
    }
  }
}

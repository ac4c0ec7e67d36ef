/**
  createGlobalValsFilter (ldc/gen/dynamiccompile.cpp): which symbols go into the
  module for run-time compilation, and how visible they are.
 */
module SymbolClosure {
  import opened Options
  import opened FiniteSets
  import opened OperandGraph

  datatype Visibility = Internal | External | Declaration

  /** A function marked for run-time compilation; thunk: it has a thunk variable. */
  datatype Root = Root(fun: Val, thunk: bool)

  datatype Program = Program(g: Graph, bodies: map<Val, seq<Val>>, personality: map<Val, Val>,
                             functions: set<Val>, declarations: set<Val>, intrinsics: set<Val>,
                             predefined: set<Val>, roots: seq<Root>, runtimeVars: set<Val>)
  {
    function Body(f: Val): seq<Val> { if f in bodies then bodies[f] else [] }

    ghost predicate IsRoot(x: Val) { exists i :: 0 <= i < |roots| && roots[i].fun == x }

    /** A symbol whose body is pulled in when it is referenced. */
    predicate Defined(x: Val) { x !in declarations && x in functions && x !in intrinsics }

    /** The functions whose references are followed. */
    ghost predicate Traversed(f: Val) { IsRoot(f) || (f !in predefined && Defined(f)) }

    ghost predicate Ref(f: Val, x: Val) {
      || (f in personality && personality[f] in g.globals && x == personality[f])
      || (f in bodies && exists i :: 0 <= i < |bodies[f]| && Below(g, bodies[f][i], x))
    }

    /** Each function is marked once. */
    ghost predicate Valid() {
      forall i, j :: 0 <= i < j < |roots| ==> roots[i].fun != roots[j].fun
    }

    /** From a root along references of traversed functions, runtime variables left aside. */
    ghost predicate Chain(p: seq<Val>) {
      |p| > 0 && IsRoot(p[0]) && forall i, j :: 0 <= i && j == i + 1 && j < |p| ==> Follows(p[i], p[j])
    }

    ghost predicate Follows(f: Val, x: Val) { Traversed(f) && Ref(f, x) && x !in runtimeVars }

    ghost predicate Reachable(x: Val) { exists p :: Chain(p) && p[|p| - 1] == x }

    function RootThunk(x: Val, i: nat): Option<bool>
      requires i <= |roots|
      decreases |roots| - i
    {
      if i == |roots| then None else if roots[i].fun == x then Some(roots[i].thunk) else RootThunk(x, i + 1)
    }

    /** The visibility of every symbol in the filter. */
    ghost function Expected(x: Val): Visibility {
      if x in predefined then Declaration
      else
        match RootThunk(x, 0)
        case Some(thunk) => if thunk then External else Internal
        case None => if Defined(x) then Internal else Declaration
    }
  }

  lemma {:induction false} RootThunkAt(pr: Program, x: Val, i: nat)
    requires i <= |pr.roots|
    ensures pr.RootThunk(x, i).Some? <==> exists k :: i <= k < |pr.roots| && pr.roots[k].fun == x
    ensures pr.Valid() ==> forall k :: i <= k < |pr.roots| && pr.roots[k].fun == x ==> pr.RootThunk(x, i) == Some(pr.roots[k].thunk)
    decreases |pr.roots| - i
  {
    if i < |pr.roots| { RootThunkAt(pr, x, i + 1); }
  }

  // ------------------------------------------------------------------ enumFuncSymbols

  /** Enumerating the operands of f's instructions needs no deeper stack. */
  ghost predicate BodyEnds(pr: Program, f: Val, depth: nat) {
    f in pr.bodies ==> forall i :: 0 <= i < |pr.bodies[f]| ==> Enum(pr.g, pr.bodies[f][i], depth).Some?
  }

  /** x is below one of the first i instructions. */
  ghost predicate BelowSome(g: Graph, body: seq<Val>, i: nat, x: Val) {
    exists k :: 0 <= k < i && k < |body| && Below(g, body[k], x)
  }

  lemma BelowNext(g: Graph, body: seq<Val>, i: nat, x: Val)
    requires i < |body|
    ensures BelowSome(g, body, i + 1, x) <==> BelowSome(g, body, i, x) || Below(g, body[i], x)
  {
    hide Below;
  }

  lemma RefIs(pr: Program, f: Val, x: Val)
    ensures pr.Ref(f, x) <==>
      (f in pr.personality && pr.personality[f] in pr.g.globals && x == pr.personality[f])
      || BelowSome(pr.g, pr.Body(f), |pr.Body(f)|, x)
  {
    hide Below;
  }

  method EnumFuncSymbols(pr: Program, f: Val, depth: nat) returns (syms: Option<seq<Val>>)
    ensures syms.Some? <==> BodyEnds(pr, f, depth)
    ensures syms.Some? ==> forall x :: x in syms.value <==> pr.Ref(f, x)
  {
    hide Enum, Below, BelowSome;
    var done := [];
    if f in pr.personality && pr.personality[f] in pr.g.globals { done := [pr.personality[f]]; }
    ghost var first := done;
    var body := pr.Body(f);
    forall x ensures !BelowSome(pr.g, body, 0, x) { NoneBelow(pr.g, body, x); }
    for i := 0 to |body|
      invariant forall k :: 0 <= k < i ==> Enum(pr.g, body[k], depth).Some?
      invariant forall x :: x in done <==> x in first || BelowSome(pr.g, body, i, x)
    {
      var calls := EnumOperands(pr.g, body[i], depth);
      if calls.None? { return None; }
      forall x ensures x in calls.value || BelowSome(pr.g, body, i, x) <==> BelowSome(pr.g, body, i + 1, x) {
        EnumExact(pr.g, body[i], depth, x);
        BelowNext(pr.g, body, i, x);
      }
      done := done + calls.value;
    }
    syms := Some(done);
    forall x ensures x in done <==> pr.Ref(f, x) { RefIs(pr, f, x); }
  }

  lemma NoneBelow(g: Graph, body: seq<Val>, x: Val)
    ensures !BelowSome(g, body, 0, x)
  {
  }

  // ------------------------------------------------------------------------ invariants

  type Filter = map<Val, Visibility>

  /** The symbols that can ever enter the filter. */
  ghost function Universe(pr: Program): set<Val> {
    pr.g.globals + pr.predefined + set i | 0 <= i < |pr.roots| :: pr.roots[i].fun
  }

  ghost predicate EntryOk(pr: Program, ret: Filter, x: Val)
    requires x in ret
  {
    ret[x] == pr.Expected(x) && (x in pr.predefined || pr.Reachable(x)) && x in Universe(pr)
  }

  ghost predicate Sound(pr: Program, ret: Filter) { forall x :: x in ret ==> EntryOk(pr, ret, x) }

  ghost predicate Closed(pr: Program, ret: Filter, f: Val) {
    forall x :: pr.Ref(f, x) ==> x in ret || x in pr.runtimeVars
  }

  /** Every traversed function in the filter has been dealt with, or waits in the set. */
  ghost predicate Waiting(pr: Program, ret: Filter, waiting: set<Val>, depth: nat) {
    forall f :: f in ret && pr.Traversed(f) ==> f in waiting || (Closed(pr, ret, f) && BodyEnds(pr, f, depth))
  }

  lemma RefInGlobals(pr: Program, f: Val, x: Val)
    requires pr.Ref(f, x)
    ensures x in Universe(pr)
  {
  }

  lemma ReachableStep(pr: Program, f: Val, x: Val)
    requires pr.Reachable(f) && pr.Follows(f, x)
    ensures pr.Reachable(x)
  {
    var p :| pr.Chain(p) && p[|p| - 1] == f;
    var q := p + [x];
    forall i, j | 0 <= i && j == i + 1 && j < |q| ensures pr.Follows(q[i], q[j]) {
      if j < |p| { assert pr.Follows(p[i], p[j]); }
    }
    assert pr.Chain(q) && q[|q| - 1] == x;
  }

  lemma RootReachable(pr: Program, x: Val)
    requires pr.IsRoot(x)
    ensures pr.Reachable(x) && pr.Traversed(x)
  {
    assert pr.Chain([x]) && [x][|[x]| - 1] == x;
  }

  lemma ExpectedNew(pr: Program, x: Val)
    requires x !in pr.predefined && !pr.IsRoot(x)
    ensures pr.Expected(x) == if pr.Defined(x) then Internal else Declaration
  {
    RootThunkAt(pr, x, 0);
  }

  lemma ExpectedRoot(pr: Program, i: nat)
    requires pr.Valid() && i < |pr.roots| && pr.roots[i].fun !in pr.predefined
    ensures pr.Expected(pr.roots[i].fun) == if pr.roots[i].thunk then External else Internal
  {
    RootThunkAt(pr, pr.roots[i].fun, 0);
  }

  /** Adding one entry. */
  lemma SoundAdd(pr: Program, ret: Filter, x: Val, v: Visibility)
    requires Sound(pr, ret) && v == pr.Expected(x) && pr.Reachable(x) && x in Universe(pr)
    ensures Sound(pr, ret[x := v])
  {
    var ret' := ret[x := v];
    forall y | y in ret' ensures EntryOk(pr, ret', y) { assert y in ret ==> EntryOk(pr, ret, y); }
  }

  lemma WaitingAdd(pr: Program, ret: Filter, waiting: set<Val>, x: Val, v: Visibility, more: set<Val>, depth: nat)
    requires Waiting(pr, ret, waiting, depth) && (pr.Traversed(x) ==> x in more)
    ensures Waiting(pr, ret[x := v], waiting + more, depth)
  {
    var ret' := ret[x := v];
    forall f | f in ret' && pr.Traversed(f)
      ensures f in waiting + more || (Closed(pr, ret', f) && BodyEnds(pr, f, depth))
    {
      if f != x && f !in waiting { ClosedMono(pr, ret, ret', f); }
    }
  }

  lemma ClosedMono(pr: Program, ret: Filter, ret': Filter, f: Val)
    requires Closed(pr, ret, f) && ret.Keys <= ret'.Keys
    ensures Closed(pr, ret', f)
  {
  }

  // -------------------------------------------------------------------------- the loops

  /** All that holds of the filter while functions wait to be traversed. */
  ghost predicate Inv(pr: Program, ret: Filter, waiting: set<Val>, depth: nat) {
    && Sound(pr, ret) && Waiting(pr, ret, waiting, depth)
    && (forall x :: x in pr.predefined || pr.IsRoot(x) ==> x in ret)
    && (forall x :: x in waiting ==> pr.Traversed(x) && pr.Reachable(x))
  }

  /** The handler: one referenced global value, inserted once; only a new definition is queued. */
  method Handle(pr: Program, ret0: Filter, toAdd0: seq<Val>, gv: Val) returns (ret: Filter, toAdd: seq<Val>)
    ensures gv in pr.runtimeVars || gv in ret0 ==> ret == ret0 && toAdd == toAdd0
    ensures gv !in pr.runtimeVars && gv !in ret0 && pr.Defined(gv) ==> ret == ret0[gv := Internal] && toAdd == toAdd0 + [gv]
    ensures gv !in pr.runtimeVars && gv !in ret0 && !pr.Defined(gv) ==> ret == ret0[gv := Declaration] && toAdd == toAdd0
  {
    ret, toAdd := ret0, toAdd0;
    if gv !in pr.runtimeVars && gv !in ret {
      ret := ret[gv := Declaration];
      if gv !in pr.declarations {
        if gv in pr.functions {
          if gv !in pr.intrinsics {
            ret := ret[gv := Internal];
            assert ret == ret0[gv := Internal];
            toAdd := toAdd + [gv];
          }
        }
      }
    }
  }

  lemma ElementsPush(xs: seq<Val>, x: Val)
    ensures Elements(xs + [x]) == Elements(xs) + {x}
  {
  }

  /** What the handler keeps. */
  lemma AddSymbol(pr: Program, ret: Filter, waiting: set<Val>, f: Val, gv: Val, depth: nat)
    requires Inv(pr, ret, waiting, depth) && pr.Ref(f, gv) && pr.Reachable(f) && pr.Traversed(f)
    requires gv !in pr.runtimeVars && gv !in ret
    ensures pr.Defined(gv) ==> Inv(pr, ret[gv := Internal], waiting + {gv}, depth)
    ensures !pr.Defined(gv) ==> Inv(pr, ret[gv := Declaration], waiting, depth)
  {
    hide Sound, Waiting, Universe;
    var v, more: set<Val> := if pr.Defined(gv) then Internal else Declaration, if pr.Defined(gv) then {gv} else {};
    ReachableStep(pr, f, gv);
    RefInGlobals(pr, f, gv);
    ExpectedNew(pr, gv);
    SoundAdd(pr, ret, gv, v);
    WaitingAdd(pr, ret, waiting, gv, v, more, depth);
    assert waiting + more == if pr.Defined(gv) then waiting + {gv} else waiting;
  }

  /** One function; it fails exactly if its operands go deeper than the stack. */
  method Traverse(pr: Program, ret0: Filter, toAdd0: seq<Val>, f: Val, depth: nat, ghost waiting: set<Val>)
    returns (ok: bool, ret: Filter, toAdd: seq<Val>)
    requires Inv(pr, ret0, waiting + {f} + Elements(toAdd0), depth)
    ensures pr.Traversed(f) && pr.Reachable(f) && (ok <==> BodyEnds(pr, f, depth))
    ensures ok ==> Inv(pr, ret, waiting + Elements(toAdd), depth) && ret0.Keys <= ret.Keys
    ensures ok ==> |toAdd| >= |toAdd0| && (|toAdd| > |toAdd0| ==> ret0.Keys < ret.Keys)
  {
    hide Inv, BodyEnds, Elements;
    ret, toAdd := ret0, toAdd0;
    WaitingMember(pr, ret0, waiting + {f} + Elements(toAdd0), f, depth);
    var found := EnumFuncSymbols(pr, f, depth);
    if found.None? { return false, ret, toAdd; }
    var syms := found.value;
    for i := 0 to |syms|
      invariant Inv(pr, ret, waiting + {f} + Elements(toAdd), depth) && ret0.Keys <= ret.Keys
      invariant |toAdd| >= |toAdd0| && (|toAdd| > |toAdd0| ==> ret0.Keys < ret.Keys)
      invariant forall k :: 0 <= k < i ==> syms[k] in ret || syms[k] in pr.runtimeVars
    {
      ghost var w, more := waiting + {f} + Elements(toAdd), toAdd;
      if syms[i] !in pr.runtimeVars && syms[i] !in ret {
        assert syms[i] in syms;
        AddSymbol(pr, ret, w, f, syms[i], depth);
      }
      ret, toAdd := Handle(pr, ret, toAdd, syms[i]);
      ElementsPush(more, syms[i]);
      assert w + {syms[i]} == waiting + {f} + (Elements(more) + {syms[i]});
    }
    assert Closed(pr, ret, f);
    Finished(pr, ret, f, waiting + Elements(toAdd), waiting + {f} + Elements(toAdd), depth);
    ok := true;
  }

  lemma WaitingMember(pr: Program, ret: Filter, waiting: set<Val>, f: Val, depth: nat)
    requires Inv(pr, ret, waiting, depth) && f in waiting
    ensures pr.Traversed(f) && pr.Reachable(f)
  {
  }

  lemma Finished(pr: Program, ret: Filter, f: Val, rest: set<Val>, waiting: set<Val>, depth: nat)
    requires Inv(pr, ret, waiting, depth) && Closed(pr, ret, f) && BodyEnds(pr, f, depth)
    requires rest <= waiting && waiting - {f} <= rest
    ensures Inv(pr, ret, rest, depth)
  {
  }

  /** The first loop: the marked functions themselves. */
  method AddRoots(pr: Program, ghost depth: nat) returns (ret: Filter, newFunctions: seq<Val>)
    requires pr.Valid()
    ensures Inv(pr, ret, Elements(newFunctions), depth)
  {
    ret := map x | x in pr.predefined :: Declaration;
    newFunctions := [];
    hide Sound, RootsAdded, Inv;
    NoRootsYet(pr, ret);
    for i := 0 to |pr.roots|
      invariant Sound(pr, ret) && RootsAdded(pr, ret, newFunctions, i)
    {
      var root := pr.roots[i];
      var v := if root.thunk then External else Internal;
      RootAdded(pr, ret, newFunctions, i, v);
      if root.fun !in ret { ret := ret[root.fun := v]; }
      newFunctions := newFunctions + [root.fun];
    }
    AllRootsAdded(pr, ret, newFunctions, depth);
  }

  ghost predicate RootsAdded(pr: Program, ret: Filter, done: seq<Val>, i: nat) {
    && |done| == i <= |pr.roots|
    && (forall k :: 0 <= k < i ==> done[k] == pr.roots[k].fun && done[k] in ret)
    && (forall x :: x in pr.predefined ==> x in ret)
    && (forall x :: x in ret ==> x in pr.predefined || x in done)
  }

  lemma NoRootsYet(pr: Program, ret: Filter)
    requires ret == map x | x in pr.predefined :: Declaration
    ensures Sound(pr, ret) && RootsAdded(pr, ret, [], 0)
  {
  }

  lemma RootAdded(pr: Program, ret: Filter, done: seq<Val>, i: nat, v: Visibility)
    requires pr.Valid() && i < |pr.roots| && Sound(pr, ret) && RootsAdded(pr, ret, done, i)
    requires v == if pr.roots[i].thunk then External else Internal
    ensures var f := pr.roots[i].fun; var ret' := if f in ret then ret else ret[f := v];
      Sound(pr, ret') && RootsAdded(pr, ret', done + [f], i + 1)
  {
    hide Sound;
    var f := pr.roots[i].fun;
    if f !in ret {
      ExpectedRoot(pr, i);
      RootReachable(pr, f);
      SoundAdd(pr, ret, f, v);
    }
  }

  lemma AllRootsAdded(pr: Program, ret: Filter, done: seq<Val>, depth: nat)
    requires Sound(pr, ret) && RootsAdded(pr, ret, done, |pr.roots|)
    ensures Inv(pr, ret, Elements(done), depth)
  {
    hide Sound;
    forall x | x in done ensures pr.Traversed(x) && pr.Reachable(x) {
      var k :| 0 <= k < |done| && done[k] == x;
      assert pr.roots[k].fun == x;
      RootReachable(pr, x);
    }
    forall f | f in ret && pr.Traversed(f) ensures f in done {
      if pr.IsRoot(f) { var k :| 0 <= k < |pr.roots| && pr.roots[k].fun == f; assert done[k] == f; }
    }
  }

  /** The run ends on a stack of the given depth. */
  ghost predicate EndsWithin(pr: Program, depth: nat) {
    forall f :: pr.Reachable(f) && pr.Traversed(f) ==> BodyEnds(pr, f, depth)
  }

  /** One generation of the work list. */
  method Generation(pr: Program, ret0: Filter, newFunctions: seq<Val>, depth: nat)
    returns (ok: bool, ret: Filter, toAdd: seq<Val>)
    requires Inv(pr, ret0, Elements(newFunctions), depth)
    ensures !ok ==> !EndsWithin(pr, depth)
    ensures ok ==> Inv(pr, ret, Elements(toAdd), depth) && ret0.Keys <= ret.Keys && (toAdd != [] ==> ret0.Keys < ret.Keys)
  {
    hide Inv, BodyEnds;
    ret, toAdd := ret0, [];
    assert Elements(newFunctions[0..]) + Elements([]) == Elements(newFunctions);
    for i := 0 to |newFunctions|
      invariant Inv(pr, ret, Elements(newFunctions[i..]) + Elements(toAdd), depth)
      invariant ret0.Keys <= ret.Keys && (|toAdd| > 0 ==> ret0.Keys < ret.Keys)
    {
      assert newFunctions[i..] == [newFunctions[i]] + newFunctions[i + 1..];
      assert Elements(newFunctions[i..]) + Elements(toAdd)
          == Elements(newFunctions[i + 1..]) + {newFunctions[i]} + Elements(toAdd);
      ok, ret, toAdd := Traverse(pr, ret, toAdd, newFunctions[i], depth, Elements(newFunctions[i + 1..]));
      if !ok { return; }
    }
    assert Elements(newFunctions[|newFunctions|..]) + Elements(toAdd) == Elements(toAdd);
    ok := true;
  }

  /**
    createGlobalValsFilter on a stack of the given depth: it comes to an end exactly if no
    function it has to traverse needs a deeper one, and then the filter is exact.
   */
  method CreateFilterWithin(pr: Program, depth: nat) returns (ret: Option<Filter>)
    requires pr.Valid()
    ensures ret.Some? <==> EndsWithin(pr, depth)
    ensures ret.Some? ==> Exact(pr, ret.value)
  {
    hide Inv, EndsWithin, Exact, Sound, Universe;
    var filter, newFunctions := AddRoots(pr, depth);
    while newFunctions != []
      invariant Inv(pr, filter, Elements(newFunctions), depth)
      decreases |Universe(pr) - filter.Keys|, |newFunctions|
    {
      ghost var before := filter.Keys;
      var ok;
      ok, filter, newFunctions := Generation(pr, filter, newFunctions, depth);
      if !ok { return None; }
      InvSound(pr, filter, Elements(newFunctions), depth);
      Shrinks(pr, before, filter);
    }
    assert Elements([]) == {};
    Complete(pr, filter, depth);
    ret := Some(filter);
  }

  lemma InvSound(pr: Program, ret: Filter, waiting: set<Val>, depth: nat)
    requires Inv(pr, ret, waiting, depth)
    ensures Sound(pr, ret)
  {
  }

  /** No operand cycle is in reach of a function that has to be traversed. */
  ghost predicate ReachedAcyclic(pr: Program) {
    forall f, i :: pr.Reachable(f) && pr.Traversed(f) && f in pr.bodies && 0 <= i < |pr.bodies[f]| ==>
      Acyclic(pr.g, pr.bodies[f][i])
  }

  /** Some stack is deep enough exactly if every function that is reached and traversed has no operand cycle in reach. */
  lemma EndsIffReachedAcyclic(pr: Program)
    ensures (exists depth: nat :: EndsWithin(pr, depth)) <==> ReachedAcyclic(pr)
    ensures ReachedAcyclic(pr) ==> EndsWithin(pr, |pr.g.ops|)
  {
    if depth: nat :| EndsWithin(pr, depth) {
      forall f, i | pr.Reachable(f) && pr.Traversed(f) && f in pr.bodies && 0 <= i < |pr.bodies[f]|
        ensures Acyclic(pr.g, pr.bodies[f][i])
      {
        assert BodyEnds(pr, f, depth);
        TerminatesIffAcyclic(pr.g, pr.bodies[f][i]);
      }
    }
    if ReachedAcyclic(pr) {
      forall f | pr.Reachable(f) && pr.Traversed(f) ensures BodyEnds(pr, f, |pr.g.ops|) {
        if f in pr.bodies {
          forall i | 0 <= i < |pr.bodies[f]| ensures Enum(pr.g, pr.bodies[f][i], |pr.g.ops|).Some? {
            EnumBound(pr.g, pr.bodies[f][i]);
          }
        }
      }
      var depth: nat := |pr.g.ops|;
      assert EndsWithin(pr, depth);
    }
  }

  /** createGlobalValsFilter where it ends. */
  method CreateFilter(pr: Program) returns (ret: Filter)
    requires pr.Valid() && ReachedAcyclic(pr)
    ensures Exact(pr, ret)
  {
    EndsIffReachedAcyclic(pr);
    var r := CreateFilterWithin(pr, |pr.g.ops|);
    ret := r.value;
  }

  /** Keys, visibilities, and the references of everything kept as a definition. */
  ghost predicate Exact(pr: Program, ret: Filter) {
    && (forall x :: x in ret <==> x in pr.predefined || pr.Reachable(x))
    && (forall x :: x in ret ==> ret[x] == pr.Expected(x))
    && (forall f :: f in ret && pr.Traversed(f) ==> Closed(pr, ret, f))
  }

  lemma Complete(pr: Program, ret: Filter, depth: nat)
    requires Inv(pr, ret, {}, depth)
    ensures Exact(pr, ret) && EndsWithin(pr, depth)
  {
    forall x | x in ret ensures (x in pr.predefined || pr.Reachable(x)) && ret[x] == pr.Expected(x) {
      assert EntryOk(pr, ret, x);
    }
    forall x | pr.Reachable(x) ensures x in ret {
      var p :| pr.Chain(p) && p[|p| - 1] == x;
      ChainInside(pr, ret, p);
    }
  }

  lemma Shrinks(pr: Program, before: set<Val>, ret: Filter)
    requires Sound(pr, ret) && before <= ret.Keys
    ensures before < ret.Keys ==> |Universe(pr) - ret.Keys| < |Universe(pr) - before|
    ensures before == ret.Keys ==> |Universe(pr) - ret.Keys| == |Universe(pr) - before|
  {
    if before < ret.Keys {
      var x :| x in ret.Keys && x !in before;
      assert EntryOk(pr, ret, x);
      var a, b := Universe(pr) - ret.Keys, Universe(pr) - before;
      assert a <= b - {x} && x in b;
      SubsetSize(a, b - {x});
    }
  }

  /** Completeness: a closed filter that holds the roots holds every chain. */
  lemma {:induction false} ChainInside(pr: Program, ret: Filter, p: seq<Val>)
    requires pr.Chain(p) && forall x :: pr.IsRoot(x) ==> x in ret
    requires forall f :: f in ret && pr.Traversed(f) ==> Closed(pr, ret, f)
    ensures p[|p| - 1] in ret
    decreases |p|
  {
    if |p| > 1 {
      var q := p[..|p| - 1];
      assert forall i :: 0 <= i < |q| ==> q[i] == p[i];
      ChainInside(pr, ret, q);
      assert pr.Follows(p[|p| - 2], p[|p| - 1]);
    }
  }

  /** Which symbols are internal. */
  lemma InternalExactly(pr: Program, x: Val)
    requires pr.Valid()
    ensures pr.Expected(x) == Internal <==>
      && x !in pr.predefined
      && if pr.IsRoot(x) then Root(x, false) in pr.roots else pr.Defined(x)
  {
    RootThunkAt(pr, x, 0);
    if Root(x, false) in pr.roots {
      var k :| 0 <= k < |pr.roots| && pr.roots[k] == Root(x, false);
    }
    if pr.RootThunk(x, 0) == Some(false) {
      var k :| 0 <= k < |pr.roots| && pr.roots[k].fun == x;
      assert pr.roots[k] == Root(x, false);
    }
  }
}

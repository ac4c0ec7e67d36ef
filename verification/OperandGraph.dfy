/**
  enumOperands (ldc/gen/dynamiccompile.cpp): the global values reachable from an
  instruction through operands, constants and initialisers.  The recursion keeps no
  record of what it has visited; it ends exactly on graphs without operand cycles.
 */
module OperandGraph {
  import opened Options
  import opened FiniteSets

  type Val = nat

  /** Users and their operands; everything else has none. */
  datatype Graph = Graph(ops: map<Val, seq<Val>>, globals: set<Val>) {
    function Operands(v: Val): seq<Val> { if v in ops then ops[v] else [] }
  }

  function Visit(g: Graph, op: Val): seq<Val> { if op in g.globals then [op] else [] }

  /** The handler calls, in order; None if the recursion goes deeper than allowed. */
  function Enum(g: Graph, v: Val, depth: nat): Option<seq<Val>>
    decreases depth, 1, 0
  {
    EnumList(g, g.Operands(v), depth)
  }

  function EnumList(g: Graph, vs: seq<Val>, depth: nat): Option<seq<Val>>
    decreases depth, 0, |vs|
  {
    if vs == [] then Some([])
    else if depth == 0 then None
    else
      var inner, rest := Enum(g, vs[0], depth - 1), EnumList(g, vs[1..], depth);
      if inner.None? || rest.None? then None else Some(Visit(g, vs[0]) + inner.value + rest.value)
  }

  /** The recursion from v comes to an end. */
  ghost predicate Terminates(g: Graph, v: Val) { exists depth: nat :: Enum(g, v, depth).Some? }

  /** A walk along operands. */
  ghost predicate Walk(g: Graph, p: seq<Val>) {
    |p| > 0 && forall i :: 0 <= i < |p| - 1 ==> p[i] in g.ops && p[i + 1] in g.ops[p[i]]
  }

  ghost predicate Distinct(p: seq<Val>) { forall i, j :: 0 <= i < j < |p| ==> p[i] != p[j] }

  /** No walk from v ever returns to a value it has passed. */
  ghost predicate Acyclic(g: Graph, v: Val) { forall p :: Walk(g, p) && p[0] == v ==> Distinct(p) }

  // ------------------------------------------------------------- ending means acyclic

  lemma {:induction false} EnumListMember(g: Graph, vs: seq<Val>, depth: nat, x: Val)
    requires EnumList(g, vs, depth).Some? && x in vs
    ensures depth > 0 && Enum(g, x, depth - 1).Some?
    decreases |vs|
  {
    if x != vs[0] { EnumListMember(g, vs[1..], depth, x); }
  }

  lemma {:induction false} WalkBounded(g: Graph, p: seq<Val>, depth: nat)
    requires Walk(g, p) && Enum(g, p[0], depth).Some?
    ensures |p| <= depth + 1
    decreases |p|
  {
    if |p| > 1 {
      assert p[0 + 1] in g.Operands(p[0]);
      EnumListMember(g, g.Operands(p[0]), depth, p[1]);
      assert Walk(g, p[1..]);
      WalkBounded(g, p[1..], depth - 1);
    }
  }

  /** Going round a cycle once more. */
  lemma Pump(g: Graph, p: seq<Val>, i: nat, j: nat) returns (q: seq<Val>)
    requires Walk(g, p) && i < j < |p| && p[i] == p[j]
    ensures Walk(g, q) && q[0] == p[0] && |q| > |p| && j < |q| && q[i] == q[j]
  {
    q := p[..j + 1] + p[i + 1..];
    forall k | 0 <= k < |q| - 1 ensures q[k + 1] in g.Operands(q[k]) {
      if k < j {
        assert p[k + 1] in g.Operands(p[k]);
      } else {
        var m := if k == j then i else k - j + i;
        assert q[k] == p[m] && q[k + 1] == p[m + 1];
        assert p[m + 1] in g.Operands(p[m]);
      }
    }
  }

  lemma {:induction false} CycleGivesLongWalks(g: Graph, p: seq<Val>, i: nat, j: nat, n: nat) returns (q: seq<Val>)
    requires Walk(g, p) && i < j < |p| && p[i] == p[j]
    ensures Walk(g, q) && q[0] == p[0] && |q| > n
    decreases if |p| > n then 0 else n - |p| + 1
  {
    if |p| > n {
      q := p;
    } else {
      var p' := Pump(g, p, i, j);
      q := CycleGivesLongWalks(g, p', i, j, n);
    }
  }

  // ------------------------------------------------------------- acyclic means ending

  lemma {:induction false} EnumListSome(g: Graph, vs: seq<Val>, depth: nat)
    requires depth > 0 && forall x :: x in vs ==> Enum(g, x, depth - 1).Some?
    ensures EnumList(g, vs, depth).Some?
    decreases |vs|
  {
    if vs != [] {
      assert vs[0] in vs && forall x :: x in vs[1..] ==> x in vs;
      EnumListSome(g, vs[1..], depth);
    }
  }

  ghost function Elements(p: seq<Val>): set<Val> { set x | x in p }

  lemma {:induction false} DistinctSize(p: seq<Val>)
    requires Distinct(p)
    ensures |Elements(p)| == |p|
    decreases |p|
  {
    if p == [] {
      assert Elements(p) == {};
    } else {
      var m := |p| - 1;
      assert Distinct(p[..m]);
      DistinctSize(p[..m]);
      assert Elements(p) == Elements(p[..m]) + {p[m]};
      assert p[m] !in Elements(p[..m]);
    }
  }

  /** Behind a walk without repetition there is still depth left for every user not on it. */
  lemma {:induction false} EnumBehind(g: Graph, p: seq<Val>, depth: nat)
    requires Walk(g, p) && Acyclic(g, p[0]) && depth + |p| == |g.ops| + 1
    ensures Enum(g, p[|p| - 1], depth).Some?
    decreases depth
  {
    var v := p[|p| - 1];
    if depth == 0 {
      AllUsersOnWalk(g, p);
    } else {
      forall x | x in g.Operands(v) ensures Enum(g, x, depth - 1).Some? {
        var q := p + [x];
        forall i | 0 <= i < |q| - 1 ensures q[i + 1] in g.Operands(q[i]) {
          if i < |p| - 1 { assert p[i + 1] in g.Operands(p[i]); }
        }
        EnumBehind(g, q, depth - 1);
      }
      EnumListSome(g, g.Operands(v), depth);
    }
  }

  lemma AllUsersOnWalk(g: Graph, p: seq<Val>)
    requires Walk(g, p) && Distinct(p) && |p| == |g.ops| + 1
    ensures p[|p| - 1] !in g.ops
  {
    var front := p[..|p| - 1];
    assert Distinct(front);
    DistinctSize(front);
    forall x | x in Elements(front) ensures x in g.ops.Keys {
      var i :| 0 <= i < |front| && front[i] == x;
      assert p[i + 1] in g.Operands(p[i]);
    }
    EqualSets(Elements(front), g.ops.Keys);
    assert p[|p| - 1] !in Elements(front);
  }

  lemma EnumBound(g: Graph, v: Val)
    requires Acyclic(g, v)
    ensures Enum(g, v, |g.ops|).Some?
  {
    EnumBehind(g, [v], |g.ops|);
  }

  /** enumOperands ends exactly if no operand cycle can be reached. */
  lemma TerminatesIffAcyclic(g: Graph, v: Val)
    ensures Terminates(g, v) <==> Acyclic(g, v)
  {
    if Terminates(g, v) {
      var depth: nat :| Enum(g, v, depth).Some?;
      forall p | Walk(g, p) && p[0] == v ensures Distinct(p) {
        if i: nat, j: nat :| i < j < |p| && p[i] == p[j] {
          var q := CycleGivesLongWalks(g, p, i, j, depth + 1);
          WalkBounded(g, q, depth);
        }
      }
    }
    if Acyclic(g, v) { EnumBound(g, v); }
  }

  /** A variable whose initialiser points back at the variable makes the recursion run for ever. */
  lemma CyclicInitialiserDiverges(g: Graph, v: Val, variable: Val, initialiser: Val)
    requires variable in g.Operands(v) && initialiser in g.Operands(variable) && variable in g.Operands(initialiser)
    ensures !Terminates(g, v)
  {
    var p := [v, variable, initialiser, variable];
    assert Walk(g, p) && p[1] == p[3];
    TerminatesIffAcyclic(g, v);
  }

  // ----------------------------------------------------------- what is enumerated

  /** Global values at the end of a walk of at least one step. */
  ghost predicate Below(g: Graph, v: Val, x: Val) {
    x in g.globals && exists p :: Walk(g, p) && |p| > 1 && p[0] == v && p[|p| - 1] == x
  }

  lemma BelowVia(g: Graph, v: Val, op: Val, x: Val)
    requires op in g.Operands(v) && (Below(g, op, x) || (x == op && op in g.globals))
    ensures Below(g, v, x)
  {
    if x == op && op in g.globals {
      assert Walk(g, [v, op]);
    } else {
      var p :| Walk(g, p) && |p| > 1 && p[0] == op && p[|p| - 1] == x;
      var q := [v] + p;
      forall i | 0 <= i < |q| - 1 ensures q[i + 1] in g.Operands(q[i]) {
        if i > 0 { assert p[i - 1 + 1] in g.Operands(p[i - 1]); }
      }
      assert Walk(g, q) && q[|q| - 1] == x;
    }
  }

  lemma BelowFirst(g: Graph, v: Val, x: Val) returns (op: Val)
    requires Below(g, v, x)
    ensures op in g.Operands(v) && (Below(g, op, x) || (x == op && op in g.globals))
  {
    var p :| Walk(g, p) && |p| > 1 && p[0] == v && p[|p| - 1] == x;
    op := p[0 + 1];
    if |p| > 2 { assert Walk(g, p[1..]); }
  }

  ghost predicate BelowOne(g: Graph, vs: seq<Val>, x: Val) {
    exists op :: op in vs && (Below(g, op, x) || (x == op && op in g.globals))
  }

  lemma {:induction false} EnumExact(g: Graph, v: Val, depth: nat, x: Val)
    requires Enum(g, v, depth).Some?
    ensures x in Enum(g, v, depth).value <==> Below(g, v, x)
    decreases depth, 1, 0
  {
    EnumListExact(g, g.Operands(v), depth, x);
    if BelowOne(g, g.Operands(v), x) {
      var op :| op in g.Operands(v) && (Below(g, op, x) || (x == op && op in g.globals));
      BelowVia(g, v, op, x);
    }
    if Below(g, v, x) {
      var op := BelowFirst(g, v, x);
    }
  }

  lemma {:induction false} EnumListExact(g: Graph, vs: seq<Val>, depth: nat, x: Val)
    requires EnumList(g, vs, depth).Some?
    ensures x in EnumList(g, vs, depth).value <==> BelowOne(g, vs, x)
    decreases depth, 0, |vs|
  {
    if vs != [] {
      EnumExact(g, vs[0], depth - 1, x);
      EnumListExact(g, vs[1..], depth, x);
      assert forall y :: y in vs <==> y == vs[0] || y in vs[1..];
    }
  }

  lemma EnumListStep(g: Graph, vs: seq<Val>, depth: nat)
    requires vs != []
    ensures depth == 0 ==> EnumList(g, vs, depth).None?
    ensures depth > 0 ==>
      var inner, rest := Enum(g, vs[0], depth - 1), EnumList(g, vs[1..], depth);
      EnumList(g, vs, depth) ==
        if inner.None? || rest.None? then None else Some(Visit(g, vs[0]) + inner.value + rest.value)
  {
  }

  /** What is done and what is left make up the whole enumeration. */
  ghost predicate Sofar(all: Option<seq<Val>>, done: seq<Val>, left: Option<seq<Val>>) {
    (all.Some? <==> left.Some?) && (all.Some? ==> done + left.value == all.value)
  }

  lemma SofarStep(g: Graph, all: Option<seq<Val>>, done: seq<Val>, vs: seq<Val>, depth: nat)
    requires Sofar(all, done, EnumList(g, vs, depth)) && vs != []
    ensures depth == 0 || Enum(g, vs[0], depth - 1).None? ==> all.None?
    ensures depth > 0 && Enum(g, vs[0], depth - 1).Some? ==>
      Sofar(all, done + Visit(g, vs[0]) + Enum(g, vs[0], depth - 1).value, EnumList(g, vs[1..], depth))
  {
    hide EnumList, Enum;
    EnumListStep(g, vs, depth);
  }

  /** The recursive enumeration itself, on a stack of the given depth. */
  method EnumOperands(g: Graph, usr: Val, depth: nat) returns (calls: Option<seq<Val>>)
    ensures calls == Enum(g, usr, depth)
    decreases depth
  {
    var ops, done := g.Operands(usr), [];
    ghost var all := Enum(g, usr, depth);
    assert ops[0..] == ops;
    NothingLeft(g, depth);
    hide EnumList, Enum;
    for i := 0 to |ops|
      invariant Sofar(all, done, EnumList(g, ops[i..], depth))
    {
      assert ops[i..][0] == ops[i] && ops[i..][1..] == ops[i + 1..];
      SofarStep(g, all, done, ops[i..], depth);
      if depth == 0 { return None; }
      if ops[i] in g.globals { done := done + [ops[i]]; } else { assert done + [] == done; }
      var inner := EnumOperands(g, ops[i], depth - 1);
      if inner.None? { return None; }
      done := done + inner.value;
    }
    assert ops[|ops|..] == [] && done + [] == done;
    calls := Some(done);
  }

  lemma NothingLeft(g: Graph, depth: nat)
    ensures EnumList(g, [], depth) == Some([])
  {
  }
}

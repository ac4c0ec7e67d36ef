/**
  replaceDynamicThreadLocals and iterateFuncInstructions (ldc/gen/dynamiccompile.cpp):
  every direct thread-local operand is replaced by the result of a call inserted in
  front of its instruction; after every change the basic block is scanned again from
  its start.
 */
module ThreadLocals {

  type Var = nat
  type Accessor = nat

  /** Constants other than a plain global may mention globals inside; the pass does not look into them. */
  datatype Operand = Tls(v: Var) | Result(id: nat) | ConstExpr(x: int, uses: set<Var>)

  /** Instructions of the module being rewritten; accessor calls are the inserted ones. */
  datatype Instr = Call(id: nat, acc: Accessor) | Other(tag: int, ops: seq<Operand>)

  type Block = seq<Instr>

  // ---------------------------------------------------------------------- measures

  function TlsIn(ops: seq<Operand>): nat {
    if ops == [] then 0 else (if ops[0].Tls? then 1 else 0) + TlsIn(ops[1..])
  }

  function TlsSlots(b: Block): nat {
    if b == [] then 0 else (if b[0].Other? then TlsIn(b[0].ops) else 0) + TlsSlots(b[1..])
  }

  lemma {:induction false} TlsSlotsAppend(a: Block, b: Block)
    ensures TlsSlots(a + b) == TlsSlots(a) + TlsSlots(b)
  {
    if a == [] {
      assert a + b == b;
    } else {
      assert (a + b)[1..] == a[1..] + b;
      TlsSlotsAppend(a[1..], b);
    }
  }

  lemma {:induction false} TlsInZero(ops: seq<Operand>)
    ensures TlsIn(ops) == 0 <==> forall i :: 0 <= i < |ops| ==> !ops[i].Tls?
  {
    if ops != [] {
      TlsInZero(ops[1..]);
      assert forall i :: 0 < i < |ops| ==> ops[i] == ops[1..][i - 1];
    }
  }

  lemma {:induction false} TlsInUpdate(ops: seq<Operand>, i: nat, op: Operand)
    requires i < |ops| && ops[i].Tls? && !op.Tls?
    ensures TlsIn(ops[i := op]) == TlsIn(ops) - 1
  {
    var ops' := ops[i := op];
    if i == 0 {
      assert ops'[1..] == ops[1..];
    } else {
      assert ops'[1..] == ops[1..][i - 1 := op];
      TlsInUpdate(ops[1..], i - 1, op);
    }
  }

  // ----------------------------------------------------------------- what a block means

  /** Operand as the original program wrote it, given the accessor results seen so far. */
  function Resolve(op: Operand, env: map<nat, Var>): Operand {
    if op.Result? && op.id in env then Tls(env[op.id]) else op
  }

  function ResolveAll(ops: seq<Operand>, env: map<nat, Var>): (r: seq<Operand>)
    ensures |r| == |ops|
  {
    seq(|ops|, i requires 0 <= i < |ops| => Resolve(ops[i], env))
  }

  /** Run through the block: accessor calls yield addresses, all other instructions are observed. */
  function Observe(b: Block, rets: map<Accessor, Var>, env: map<nat, Var>): Block {
    if b == [] then []
    else match b[0]
      case Call(id, acc) => Observe(b[1..], rets, if acc in rets then env[id := rets[acc]] else env)
      case Other(tag, ops) => [Other(tag, ResolveAll(ops, env))] + Observe(b[1..], rets, env)
  }

  function EnvAfter(b: Block, rets: map<Accessor, Var>, env: map<nat, Var>): map<nat, Var> {
    if b == [] then env
    else match b[0]
      case Call(id, acc) => EnvAfter(b[1..], rets, if acc in rets then env[id := rets[acc]] else env)
      case Other(_, _) => EnvAfter(b[1..], rets, env)
  }

  lemma {:induction false} ObserveAppend(a: Block, b: Block, rets: map<Accessor, Var>, env: map<nat, Var>)
    ensures Observe(a + b, rets, env) == Observe(a, rets, env) + Observe(b, rets, EnvAfter(a, rets, env))
    ensures EnvAfter(a + b, rets, env) == EnvAfter(b, rets, EnvAfter(a, rets, env))
    decreases |a|
  {
    if a == [] {
      assert a + b == b;
    } else {
      assert (a + b)[1..] == a[1..] + b && (a + b)[0] == a[0];
      match a[0]
      case Call(id, acc) => ObserveAppend(a[1..], b, rets, if acc in rets then env[id := rets[acc]] else env);
      case Other(_, _) => ObserveAppend(a[1..], b, rets, env);
    }
  }

  /** All results used or defined in the block have ids below n. */
  ghost predicate IdsBelow(b: Block, n: nat) {
    forall k :: 0 <= k < |b| ==> InstrBelow(b[k], n)
  }

  ghost predicate InstrBelow(x: Instr, n: nat) {
    match x
    case Call(id, _) => id < n
    case Other(_, ops) => forall i :: 0 <= i < |ops| && ops[i].Result? ==> ops[i].id < n
  }

  lemma ResolveFresh(ops: seq<Operand>, env: map<nat, Var>, id: nat, v: Var)
    requires InstrBelow(Other(0, ops), id)
    ensures ResolveAll(ops, env[id := v]) == ResolveAll(ops, env)
  {
    assert forall i :: 0 <= i < |ops| ==> Resolve(ops[i], env[id := v]) == Resolve(ops[i], env);
  }

  /** A result nobody mentions does not matter. */
  lemma {:induction false} ObserveFresh(b: Block, rets: map<Accessor, Var>, env: map<nat, Var>, id: nat, v: Var)
    requires IdsBelow(b, id)
    ensures Observe(b, rets, env[id := v]) == Observe(b, rets, env)
    decreases |b|
  {
    if b != [] {
      assert InstrBelow(b[0], id);
      assert forall k :: 0 <= k < |b[1..]| ==> b[1..][k] == b[k + 1];
      match b[0]
      case Call(i, acc) =>
        if acc in rets {
          assert env[id := v][i := rets[acc]] == env[i := rets[acc]][id := v];
          ObserveFresh(b[1..], rets, env[i := rets[acc]], id, v);
        } else {
          ObserveFresh(b[1..], rets, env, id, v);
        }
      case Other(tag, ops) =>
        ResolveFresh(ops, env, id, v);
        ObserveFresh(b[1..], rets, env, id, v);
    }
  }

  /** The rewriting step: a call in front of instruction k, its result in place of operand i. */
  function Replaced(b: Block, k: nat, i: nat, id: nat, acc: Accessor): Block
    requires k < |b| && b[k].Other? && i < |b[k].ops|
  {
    b[..k] + [Call(id, acc), b[k].(ops := b[k].ops[i := Result(id)])] + b[k + 1..]
  }

  lemma ReplacedSameMeaning(b: Block, k: nat, i: nat, id: nat, acc: Accessor, rets: map<Accessor, Var>)
    requires k < |b| && b[k].Other? && i < |b[k].ops| && b[k].ops[i].Tls?
    requires IdsBelow(b, id) && acc in rets && rets[acc] == b[k].ops[i].v
    ensures Observe(Replaced(b, k, i, id, acc), rets, map[]) == Observe(b, rets, map[])
  {
    var pre, x, post := b[..k], b[k], b[k + 1..];
    var x' := x.(ops := x.ops[i := Result(id)]);
    var env := EnvAfter(pre, rets, map[]);
    var env' := env[id := rets[acc]];
    assert b == pre + ([x] + post) && Replaced(b, k, i, id, acc) == pre + ([Call(id, acc)] + ([x'] + post));
    ObserveAppend(pre, [x] + post, rets, map[]);
    ObserveAppend(pre, [Call(id, acc)] + ([x'] + post), rets, map[]);
    assert ([x] + post)[1..] == post && ([Call(id, acc)] + ([x'] + post))[1..] == [x'] + post && ([x'] + post)[1..] == post;
    ObserveFresh(post, rets, env, id, rets[acc]) by { assert forall j :: 0 <= j < |post| ==> post[j] == b[k + 1 + j]; }
    assert InstrBelow(x, id);
    ResolveFresh(x.ops, env, id, rets[acc]);
    ResolveUpdate(x.ops, env, i, id, rets[acc]);
  }

  lemma ResolveUpdate(ops: seq<Operand>, env: map<nat, Var>, i: nat, id: nat, v: Var)
    requires i < |ops| && ops[i] == Tls(v) && InstrBelow(Other(0, ops), id)
    ensures ResolveAll(ops[i := Result(id)], env[id := v]) == ResolveAll(ops, env)
  {
    var a, b := ResolveAll(ops[i := Result(id)], env[id := v]), ResolveAll(ops, env);
    forall j | 0 <= j < |ops| ensures a[j] == b[j] {
      assert a[j] == Resolve(ops[i := Result(id)][j], env[id := v]) && b[j] == Resolve(ops[j], env);
    }
  }

  lemma ReplacedIds(b: Block, k: nat, i: nat, id: nat, acc: Accessor)
    requires k < |b| && b[k].Other? && i < |b[k].ops| && IdsBelow(b, id)
    ensures IdsBelow(Replaced(b, k, i, id, acc), id + 1)
  {
    var b' := Replaced(b, k, i, id, acc);
    assert InstrBelow(b[k], id);
    forall j | 0 <= j < |b'| ensures InstrBelow(b'[j], id + 1) {
      if j < k { assert b'[j] == b[j]; }
      else if j == k { assert b'[j] == Call(id, acc); }
      else if j == k + 1 { assert b'[j] == b[k].(ops := b[k].ops[i := Result(id)]); }
      else { assert b'[j] == b[j - 1]; }
    }
  }

  lemma ReplacedSlots(b: Block, k: nat, i: nat, id: nat, acc: Accessor)
    requires k < |b| && b[k].Other? && i < |b[k].ops| && b[k].ops[i].Tls?
    ensures TlsSlots(Replaced(b, k, i, id, acc)) == TlsSlots(b) - 1
  {
    var pre, x, post := b[..k], b[k], b[k + 1..];
    var x' := x.(ops := x.ops[i := Result(id)]);
    assert b == pre + ([x] + post) && Replaced(b, k, i, id, acc) == pre + ([Call(id, acc)] + ([x'] + post));
    TlsSlotsAppend(pre, [x] + post);
    TlsSlotsAppend(pre, [Call(id, acc)] + ([x'] + post));
    assert ([x] + post)[1..] == post && ([Call(id, acc)] + ([x'] + post))[1..] == [x'] + post && ([x'] + post)[1..] == post;
    TlsInUpdate(x.ops, i, Result(id));
  }

  // ------------------------------------------------------------------ growing accessors

  ghost predicate CallsKnown(b: Block, rets: map<Accessor, Var>) {
    forall k :: 0 <= k < |b| && b[k].Call? ==> b[k].acc in rets
  }

  lemma {:induction false} ObserveGrow(b: Block, rets: map<Accessor, Var>, acc: Accessor, v: Var, env: map<nat, Var>)
    requires CallsKnown(b, rets) && acc !in rets
    ensures Observe(b, rets[acc := v], env) == Observe(b, rets, env)
    decreases |b|
  {
    if b != [] {
      assert forall k :: 0 <= k < |b[1..]| ==> b[1..][k] == b[k + 1];
      match b[0]
      case Call(id, a) => ObserveGrow(b[1..], rets, acc, v, env[id := rets[a]]);
      case Other(_, _) => ObserveGrow(b[1..], rets, acc, v, env);
    }
  }

  lemma ReplacedKnown(b: Block, k: nat, i: nat, id: nat, acc: Accessor, rets: map<Accessor, Var>)
    requires k < |b| && b[k].Other? && i < |b[k].ops| && CallsKnown(b, rets) && acc in rets
    ensures CallsKnown(Replaced(b, k, i, id, acc), rets)
  {
    var b' := Replaced(b, k, i, id, acc);
    forall j | 0 <= j < |b'| && b'[j].Call? ensures b'[j].acc in rets {
      if j < k { assert b'[j] == b[j]; }
      else if j > k + 1 { assert b'[j] == b[j - 1]; }
    }
  }

  lemma {:induction false} ObserveUntouched(b: Block, rets: map<Accessor, Var>)
    requires forall k :: 0 <= k < |b| ==> b[k].Other?
    ensures Observe(b, rets, map[]) == b
  {
    if b != [] {
      ObserveUntouched(b[1..], rets);
      assert ResolveAll(b[0].ops, map[]) == b[0].ops;
      assert b == [b[0]] + b[1..];
    }
  }

  // ------------------------------------------------------------------------------- uses

  ghost predicate InstrUses(x: Instr, v: Var) { x.Other? && Tls(v) in x.ops }

  ghost predicate InstrMentions(x: Instr, v: Var) {
    x.Other? && exists i :: 0 <= i < |x.ops| && x.ops[i].ConstExpr? && v in x.ops[i].uses
  }

  ghost predicate Uses(b: Block, v: Var) { exists k :: 0 <= k < |b| && InstrUses(b[k], v) }

  ghost predicate Mentions(b: Block, v: Var) { exists k :: 0 <= k < |b| && InstrMentions(b[k], v) }

  lemma UsesTail(b: Block, v: Var)
    requires b != []
    ensures Uses(b, v) <==> InstrUses(b[0], v) || Uses(b[1..], v)
    ensures Mentions(b, v) <==> InstrMentions(b[0], v) || Mentions(b[1..], v)
  {
    assert forall k :: 0 < k < |b| ==> b[k] == b[1..][k - 1];
    assert forall k :: 0 <= k < |b[1..]| ==> b[1..][k] == b[k + 1];
  }

  lemma InstrObserved(tag: int, ops: seq<Operand>, env: map<nat, Var>, v: Var)
    ensures InstrUses(Other(tag, ops), v) ==> InstrUses(Other(tag, ResolveAll(ops, env)), v)
    ensures InstrUses(Other(tag, ResolveAll(ops, env)), v) ==> InstrUses(Other(tag, ops), v) || v in env.Values
    ensures InstrMentions(Other(tag, ResolveAll(ops, env)), v) <==> InstrMentions(Other(tag, ops), v)
  {
    var r := ResolveAll(ops, env);
    assert forall i :: 0 <= i < |ops| ==> r[i] == Resolve(ops[i], env);
    if Tls(v) in ops {
      var i :| 0 <= i < |ops| && ops[i] == Tls(v);
      assert r[i] == Tls(v);
    }
    if Tls(v) in r && v !in env.Values {
      var i :| 0 <= i < |r| && r[i] == Tls(v);
      assert ops[i] == Tls(v);
    }
    if InstrMentions(Other(tag, ops), v) {
      var i :| 0 <= i < |ops| && ops[i].ConstExpr? && v in ops[i].uses;
      assert r[i] == ops[i];
    }
    if InstrMentions(Other(tag, r), v) {
      var i :| 0 <= i < |r| && r[i].ConstExpr? && v in r[i].uses;
      assert r[i] == ops[i];
    }
  }

  /** What the observed block uses comes from the block itself or from a called accessor. */
  lemma {:induction false} ObservedUses(b: Block, rets: map<Accessor, Var>, env: map<nat, Var>, v: Var)
    ensures Uses(b, v) ==> Uses(Observe(b, rets, env), v)
    ensures Uses(Observe(b, rets, env), v) ==> Uses(b, v) || v in env.Values || v in rets.Values
    ensures Mentions(Observe(b, rets, env), v) <==> Mentions(b, v)
    decreases |b|
  {
    if b != [] {
      UsesTail(b, v);
      match b[0]
      case Call(id, acc) =>
        ObservedUses(b[1..], rets, if acc in rets then env[id := rets[acc]] else env, v);
      case Other(tag, ops) =>
        InstrObserved(tag, ops, env, v);
        ObservedUses(b[1..], rets, env, v);
        var o := Observe(b, rets, env);
        UsesTail(o, v);
        assert o[1..] == Observe(b[1..], rets, env);
    }
  }

  // ------------------------------------------------------------------------ the rewriter

  type Code = seq<seq<Block>>

  ghost predicate At(code: Code, f: int, i: int) {
    0 <= f < |code| && 0 <= i < |code[f]|
  }

  ghost predicate SameShape(a: Code, b: Code) {
    |a| == |b| && forall f :: 0 <= f < |a| ==> |a[f]| == |b[f]|
  }

  /** Block b, with the accessors as they are, means what block o meant. */
  ghost predicate Stands(b: Block, o: Block, rets: map<Accessor, Var>, nextId: nat) {
    IdsBelow(b, nextId) && CallsKnown(b, rets) && Observe(b, rets, map[]) == o
  }

  ghost predicate AllStand(code: Code, orig: Code, rets: map<Accessor, Var>, nextId: nat) {
    SameShape(code, orig)
    && forall f, i :: At(code, f, i) ==> Stands(code[f][i], orig[f][i], rets, nextId)
  }

  ghost predicate CodeUses(code: Code, v: Var) { exists f, i :: At(code, f, i) && Uses(code[f][i], v) }

  ghost predicate CodeMentions(code: Code, v: Var) { exists f, i :: At(code, f, i) && Mentions(code[f][i], v) }

  ghost predicate Clean(b: Block) { forall v :: !Uses(b, v) }

  /** Each variable has its own accessor, and that accessor returns that variable. */
  ghost predicate Inverse(accessors: map<Var, Accessor>, rets: map<Accessor, Var>, next: nat) {
    (forall v | v in accessors :: accessors[v] in rets && rets[accessors[v]] == v)
    && (forall a | a in rets :: a < next && rets[a] in accessors && accessors[rets[a]] == a)
  }

  ghost predicate OnlyUsed(accessors: map<Var, Accessor>, orig: Code) {
    forall v | v in accessors :: CodeUses(orig, v)
  }

  lemma StandsGrow(b: Block, o: Block, rets: map<Accessor, Var>, nextId: nat, acc: Accessor, v: Var)
    requires Stands(b, o, rets, nextId) && acc !in rets
    ensures Stands(b, o, rets[acc := v], nextId)
  {
    ObserveGrow(b, rets, acc, v, map[]);
  }

  lemma AllStandGrow(code: Code, orig: Code, rets: map<Accessor, Var>, nextId: nat, acc: Accessor, v: Var)
    requires AllStand(code, orig, rets, nextId) && acc !in rets
    ensures AllStand(code, orig, rets[acc := v], nextId)
  {
    hide Stands;
    forall f, i | At(code, f, i) ensures Stands(code[f][i], orig[f][i], rets[acc := v], nextId) {
      StandsGrow(code[f][i], orig[f][i], rets, nextId, acc, v);
    }
  }

  lemma OnlyUsedGrow(accessors: map<Var, Accessor>, orig: Code, v: Var, acc: Accessor)
    requires OnlyUsed(accessors, orig) && CodeUses(orig, v)
    ensures OnlyUsed(accessors[v := acc], orig)
  {
    hide CodeUses;
  }

  lemma AccessorKnown(accessors: map<Var, Accessor>, rets: map<Accessor, Var>, next: nat, v: Var)
    requires Inverse(accessors, rets, next) && v in accessors
    ensures accessors[v] in rets && rets[accessors[v]] == v
  {
  }

  lemma NewAccessor(accessors: map<Var, Accessor>, rets: map<Accessor, Var>, next: nat, v: Var)
    requires Inverse(accessors, rets, next) && v !in accessors
    ensures next !in rets && Inverse(accessors[v := next], rets[next := v], next + 1)
  {
  }

  lemma StandsLater(b: Block, o: Block, rets: map<Accessor, Var>, m: nat, n: nat)
    requires Stands(b, o, rets, m) && m <= n
    ensures Stands(b, o, rets, n)
  {
    forall k | 0 <= k < |b| ensures InstrBelow(b[k], n) {
      assert InstrBelow(b[k], m);
    }
  }

  lemma StandsReplaced(b: Block, o: Block, rets: map<Accessor, Var>, id: nat, k: nat, i: nat, acc: Accessor)
    requires Stands(b, o, rets, id)
    requires k < |b| && b[k].Other? && i < |b[k].ops| && b[k].ops[i].Tls?
    requires acc in rets && rets[acc] == b[k].ops[i].v
    ensures Stands(Replaced(b, k, i, id, acc), o, rets, id + 1)
  {
    ReplacedSameMeaning(b, k, i, id, acc, rets);
    ReplacedIds(b, k, i, id, acc);
    ReplacedKnown(b, k, i, id, acc, rets);
  }

  function Put(code: Code, f: nat, i: nat, b: Block): Code
    requires f < |code| && i < |code[f]|
  {
    code[f := code[f][i := b]]
  }

  /** The two programs differ at most in block (f, i). */
  ghost predicate OnlyAt(a: Code, b: Code, f: int, i: int) {
    SameShape(a, b) && At(a, f, i) && At(b, f, i)
    && forall g, j :: At(a, g, j) && (g != f || j != i) ==> a[g][j] == b[g][j]
  }

  lemma OnlyAtTrans(a: Code, b: Code, c: Code, f: int, i: int)
    requires OnlyAt(a, b, f, i) && OnlyAt(b, c, f, i)
    ensures OnlyAt(a, c, f, i)
  {
    assert forall g, j :: At(a, g, j) ==> At(b, g, j);
  }

  lemma PutStands(code: Code, orig: Code, rets: map<Accessor, Var>, m: nat, n: nat, f: nat, i: nat, b: Block)
    requires AllStand(code, orig, rets, m) && At(code, f, i) && m <= n
    requires Stands(b, orig[f][i], rets, n)
    ensures AllStand(Put(code, f, i, b), orig, rets, n)
    ensures OnlyAt(code, Put(code, f, i, b), f, i) && Put(code, f, i, b)[f][i] == b
  {
    var c := Put(code, f, i, b);
    forall g, j | At(c, g, j) ensures Stands(c[g][j], orig[g][j], rets, n) {
      assert At(code, g, j);
      if (g, j) != (f, i) {
        assert c[g][j] == code[g][j];
        StandsLater(code[g][j], orig[g][j], rets, m, n);
      }
    }
  }

  lemma UsedInOriginal(code: Code, orig: Code, rets: map<Accessor, Var>, n: nat, f: nat, i: nat, v: Var)
    requires AllStand(code, orig, rets, n) && At(code, f, i) && Uses(code[f][i], v)
    ensures CodeUses(orig, v)
  {
    assert Stands(code[f][i], orig[f][i], rets, n);
    ObservedUses(code[f][i], rets, map[], v);
    assert At(orig, f, i);
  }

  class Rewriter {
    var code: Code
    var accessors: map<Var, Accessor>
    /** The accessor functions created in the old module: each returns one variable's address. */
    var rets: map<Accessor, Var>
    var nextAcc: nat
    var nextId: nat
    ghost const orig: Code

    ghost predicate Valid() reads this {
      AllStand(code, orig, rets, nextId) && Inverse(accessors, rets, nextAcc) && OnlyUsed(accessors, orig)
    }

    constructor (program: Code, firstFreeId: nat)
      requires forall f, i :: At(program, f, i) ==>
        IdsBelow(program[f][i], firstFreeId) && forall k :: 0 <= k < |program[f][i]| ==> program[f][i][k].Other?
      ensures Valid() && code == program && orig == program && accessors == map[]
    {
      code, accessors, rets, nextAcc, nextId := program, map[], map[], 0, firstFreeId;
      orig := program;
      new;
      forall f, i | At(code, f, i) ensures Stands(code[f][i], orig[f][i], rets, nextId) {
        ObserveUntouched(code[f][i], rets);
      }
    }

    method GetAccessor(v: Var) returns (acc: Accessor)
      requires Valid() && CodeUses(orig, v)
      modifies this
      ensures Valid() && code == old(code) && nextId == old(nextId)
      ensures v in accessors && accessors[v] == acc && acc in rets && rets[acc] == v
      ensures accessors == old(accessors)[v := acc]
      ensures v in old(accessors) ==> acc == old(accessors)[v] && rets == old(rets)
      ensures v !in old(accessors) ==> acc !in old(rets) && rets == old(rets)[acc := v]
    {
      hide AllStand, Inverse, OnlyUsed;
      if v in accessors {
        AccessorKnown(accessors, rets, nextAcc, v);
        assert accessors == accessors[v := accessors[v]];
        return accessors[v];
      }
      acc := nextAcc;
      NewAccessor(accessors, rets, nextAcc, v);
      AllStandGrow(code, orig, rets, nextId, acc, v);
      OnlyUsedGrow(accessors, orig, v, acc);
      accessors, rets, nextAcc := accessors[v := acc], rets[acc := v], nextAcc + 1;
    }

    /** Insert the accessor call before instruction k and let operand i use its result. */
    method ReplaceOperand(f: nat, bb: nat, k: nat, i: nat)
      requires Valid() && At(code, f, bb) && k < |code[f][bb]|
      requires code[f][bb][k].Other? && i < |code[f][bb][k].ops| && code[f][bb][k].ops[i].Tls?
      modifies this
      ensures Valid()
      ensures OnlyAt(old(code), code, f, bb)
      ensures exists acc :: code[f][bb] == Replaced(old(code)[f][bb], k, i, old(nextId), acc)
      ensures TlsSlots(code[f][bb]) == TlsSlots(old(code)[f][bb]) - 1
    {
      hide Stands, Inverse, OnlyUsed, TlsSlots, CodeUses;
      var b, v, id := code[f][bb], code[f][bb][k].ops[i].v, nextId;
      assert Uses(b, v) by { assert InstrUses(b[k], v); }
      UsedInOriginal(code, orig, rets, nextId, f, bb, v);
      var acc := GetAccessor(v);
      assert Stands(b, orig[f][bb], rets, id);
      StandsReplaced(b, orig[f][bb], rets, id, k, i, acc);
      ReplacedSlots(b, k, i, id, acc);
      PutStands(code, orig, rets, id, id + 1, f, bb, Replaced(b, k, i, id, acc));
      code, nextId := Put(code, f, bb, Replaced(b, k, i, id, acc)), id + 1;
    }

    /** The handler: every operand of instruction k in turn; the instruction moves down one per inserted call. */
    method RewriteInstr(f: nat, bb: nat, k: nat) returns (changed: bool)
      requires Valid() && At(code, f, bb) && k < |code[f][bb]|
      modifies this
      ensures Valid() && OnlyAt(old(code), code, f, bb)
      ensures changed ==> TlsSlots(code[f][bb]) < TlsSlots(old(code)[f][bb])
      ensures !changed ==> code == old(code) && forall v :: !InstrUses(code[f][bb][k], v)
    {
      hide Stands, Inverse, OnlyUsed, TlsSlots, AllStand;
      changed := false;
      if code[f][bb][k].Call? { return; }
      var k', i := k, 0;
      var n := |code[f][bb][k].ops|;
      while i < n
        invariant 0 <= i <= n && k <= k'
        invariant Valid() && OnlyAt(old(code), code, f, bb)
        invariant k' < |code[f][bb]| && code[f][bb][k'].Other? && |code[f][bb][k'].ops| == n
        invariant !changed ==> code == old(code) && k' == k
        invariant changed ==> TlsSlots(code[f][bb]) < TlsSlots(old(code)[f][bb])
        invariant TlsSlots(code[f][bb]) <= TlsSlots(old(code)[f][bb])
        invariant forall j :: 0 <= j < i ==> !code[f][bb][k'].ops[j].Tls?
      {
        if code[f][bb][k'].ops[i].Tls? {
          ghost var before, was := code, code[f][bb];
          ReplaceOperand(f, bb, k', i);
          assert code[f][bb][k' + 1] == was[k'].(ops := was[k'].ops[i := code[f][bb][k' + 1].ops[i]]);
          OnlyAtTrans(old(code), before, code, f, bb);
          changed, k' := true, k' + 1;
        }
        i := i + 1;
      }
    }

    /** One basic block: start over after every change. */
    method IterateBlock(f: nat, bb: nat)
      requires Valid() && At(code, f, bb)
      modifies this
      ensures Valid() && OnlyAt(old(code), code, f, bb)
      ensures Clean(code[f][bb])
    {
      hide AllStand, Inverse, OnlyUsed, TlsSlots;
      var bbChanged := true;
      while bbChanged
        invariant Valid() && OnlyAt(old(code), code, f, bb)
        invariant !bbChanged ==> Clean(code[f][bb])
        decreases TlsSlots(code[f][bb]), bbChanged
      {
        bbChanged := false;
        ghost var start := code;
        var k := 0;
        while k < |code[f][bb]|
          invariant Valid() && OnlyAt(old(code), code, f, bb)
          invariant 0 <= k <= |code[f][bb]| && code == start && !bbChanged
          invariant forall j, v :: 0 <= j < k ==> !InstrUses(code[f][bb][j], v)
        {
          bbChanged := RewriteInstr(f, bb, k);
          OnlyAtTrans(old(code), start, code, f, bb);
          if bbChanged { break; }
          k := k + 1;
        }
      }
    }

    ghost predicate CleanUpTo(f: int, bb: int) reads this {
      forall g, j :: At(code, g, j) && (g < f || (g == f && j < bb)) ==> Clean(code[g][j])
    }

    /**
      Every function of the module, then the thread-locals that got an accessor are erased.
      Nothing uses a thread-local directly any more, and exactly the variables the program
      used directly have an accessor and are erased.
     */
    method Run() returns (erased: set<Var>)
      requires Valid()
      modifies this
      ensures Valid() && SameShape(code, orig)
      ensures forall f, i :: At(code, f, i) ==> Clean(code[f][i]) && Observe(code[f][i], rets, map[]) == orig[f][i]
      ensures forall v :: v in accessors <==> CodeUses(orig, v)
      ensures erased == accessors.Keys
    {
      var f := 0;
      while f < |code|
        invariant 0 <= f <= |code| && Valid() && CleanUpTo(f, 0)
      {
        var bb := 0;
        while bb < |code[f]|
          invariant f < |code| && 0 <= bb <= |code[f]| && Valid() && CleanUpTo(f, bb)
          invariant |code| == |orig| && |code[f]| == |orig[f]|
        {
          ghost var was := code;
          IterateBlock(f, bb);
          forall g, j | At(code, g, j) && (g < f || (g == f && j < bb + 1)) ensures Clean(code[g][j]) {
            assert At(was, g, j);
            assert (g, j) != (f, bb) ==> code[g][j] == was[g][j];
          }
          bb := bb + 1;
        }
        f := f + 1;
      }
      forall v | CodeUses(orig, v) ensures v in accessors {
        var g, j :| At(orig, g, j) && Uses(orig[g][j], v);
        assert At(code, g, j) && Stands(code[g][j], orig[g][j], rets, nextId);
        ObservedUses(code[g][j], rets, map[], v);
      }
      erased := accessors.Keys;
    }
  }

  /**
    Erasing is safe for exactly the variables no constant expression mentions: an erased
    variable is still mentioned afterwards if and only if the program had it both as a
    plain operand and inside a constant expression.
   */
  lemma ErasedStillMentioned(code: Code, orig: Code, rets: map<Accessor, Var>, accessors: map<Var, Accessor>, n: nat, v: Var)
    requires AllStand(code, orig, rets, n) && forall w :: w in accessors <==> CodeUses(orig, w)
    ensures v in accessors && CodeMentions(code, v) <==> CodeUses(orig, v) && CodeMentions(orig, v)
  {
    forall f, i | At(code, f, i) ensures Mentions(code[f][i], v) <==> Mentions(orig[f][i], v) {
      assert Stands(code[f][i], orig[f][i], rets, n);
      ObservedUses(code[f][i], rets, map[], v);
    }
    assert forall f, i :: At(code, f, i) <==> At(orig, f, i);
  }
}

/**
  Asm blocks with branches to labels outside the block (CompoundAsmStatement_toIR in
  ldc/gen/asmstmt.cpp): the labels are collected, and a setter that stores the value of the
  label that was taken is appended and numbered like the block's own statements.
 */
module AsmGotos {
  import opened AsmText
  import opened AsmOperands
  import opened AsmBlock
  import opened AsmNumbering

  // ------------------------------------------------------------- the goto forwarder

  datatype Branch = Straight | BranchTo(target: string)

  /** The branch targets outside the block. */
  function ExternalLabels(branches: seq<Branch>, internal: set<string>): set<string> {
    set i | 0 <= i < |branches| && branches[i].BranchTo? && branches[i].target !in internal :: branches[i].target
  }

  /** The first statement that branches to the label. */
  function FirstUse(branches: seq<Branch>, l: string): nat {
    if branches == [] || branches[0] == BranchTo(l) then 0 else 1 + FirstUse(branches[1..], l)
  }

  lemma {:induction false} FirstUseIs(branches: seq<Branch>, l: string, i: nat)
    requires i < |branches| && branches[i] == BranchTo(l) && forall k :: 0 <= k < i ==> branches[k] != BranchTo(l)
    ensures FirstUse(branches, l) == i
  {
    if i > 0 { FirstUseIs(branches[1..], l, i - 1); }
  }

  lemma ExternalStep(branches: seq<Branch>, internal: set<string>, i: nat)
    requires i < |branches|
    ensures var b := branches[i]; var before := ExternalLabels(branches[..i], internal);
      ExternalLabels(branches[..i + 1], internal) ==
        if b.BranchTo? && b.target !in internal then before + {b.target} else before
  {
    var pre, more := branches[..i], branches[..i + 1];
    assert forall k :: 0 <= k < i ==> more[k] == pre[k];
    assert more[i] == branches[i];
    var now := ExternalLabels(more, internal);
    forall l | l in ExternalLabels(pre, internal) ensures l in now {
      var k :| 0 <= k < |pre| && pre[k].BranchTo? && pre[k].target !in internal && pre[k].target == l;
      assert more[k] == pre[k];
    }
  }

  ghost predicate LabelOk(labels: seq<string>, vals: map<string, nat>, k: nat) {
    k < |labels| && labels[k] in vals && vals[labels[k]] == k + 1
  }

  ghost predicate ValOk(labels: seq<string>, vals: map<string, nat>, l: string) {
    l in vals && 1 <= vals[l] <= |labels| && labels[vals[l] - 1] == l
  }

  /** Label k has value k + 1, and every value is a label's. */
  ghost predicate Inverse(labels: seq<string>, vals: map<string, nat>) {
    && |labels| == |vals|
    && (forall k: nat :: k < |labels| ==> LabelOk(labels, vals, k))
    && (forall l :: l in vals ==> ValOk(labels, vals, l))
  }

  /** The labels stand in the order in which the first i statements use them. */
  ghost predicate InOrder(branches: seq<Branch>, i: nat, labels: seq<string>) {
    && (forall k :: 0 <= k < |labels| ==> FirstUse(branches, labels[k]) < i)
    && (forall k, m :: 0 <= k < m < |labels| ==> FirstUse(branches, labels[k]) < FirstUse(branches, labels[m]))
  }

  /** The labels found in the first i statements: numbered 1, 2, ... in order of first use. */
  ghost predicate Numbered(branches: seq<Branch>, i: nat, labels: seq<string>, vals: map<string, nat>) {
    Inverse(labels, vals) && InOrder(branches, i, labels)
  }

  lemma NewLabel(branches: seq<Branch>, internal: set<string>, i: nat)
    requires i < |branches| && branches[i].BranchTo? && branches[i].target !in internal
    requires branches[i].target !in ExternalLabels(branches[..i], internal)
    ensures FirstUse(branches, branches[i].target) == i
  {
    var l, pre := branches[i].target, branches[..i];
    forall k | 0 <= k < i ensures branches[k] != BranchTo(l) { assert pre[k] == branches[k]; }
    FirstUseIs(branches, l, i);
  }

  lemma LabelPush(labels: seq<string>, vals: map<string, nat>, l: string, k: nat)
    requires l !in vals && (k < |labels| ==> LabelOk(labels, vals, k)) && k <= |labels|
    ensures LabelOk(labels + [l], vals[l := |labels| + 1], k)
  {
  }

  lemma ValPush(labels: seq<string>, vals: map<string, nat>, l: string, x: string)
    requires l !in vals && (x == l || ValOk(labels, vals, x))
    ensures ValOk(labels + [l], vals[l := |labels| + 1], x)
  {
  }

  lemma InversePush(labels: seq<string>, vals: map<string, nat>, l: string)
    requires Inverse(labels, vals) && l !in vals
    ensures Inverse(labels + [l], vals[l := |labels| + 1])
  {
    hide LabelOk, ValOk;
    var ls, vs := labels + [l], vals[l := |labels| + 1];
    assert vs.Keys == vals.Keys + {l};
    assert |vs| == |vs.Keys| && |vals| == |vals.Keys|;
    forall k: nat | k < |ls| ensures LabelOk(ls, vs, k) { LabelPush(labels, vals, l, k); }
    forall x | x in vs ensures ValOk(ls, vs, x) { ValPush(labels, vals, l, x); }
  }

  lemma LabelHasValue(labels: seq<string>, vals: map<string, nat>, k: nat)
    requires Inverse(labels, vals) && k < |labels|
    ensures labels[k] in vals
  {
    assert LabelOk(labels, vals, k);
  }

  lemma InOrderPush(branches: seq<Branch>, i: nat, labels: seq<string>, l: string)
    requires InOrder(branches, i, labels) && FirstUse(branches, l) == i
    ensures InOrder(branches, i + 1, labels + [l])
  {
    hide FirstUse;
  }

  lemma NumberedStep(branches: seq<Branch>, i: nat, labels: seq<string>, vals: map<string, nat>, l: string)
    requires Numbered(branches, i, labels, vals) && FirstUse(branches, l) == i && l !in vals
    ensures Numbered(branches, i + 1, labels + [l], vals[l := |labels| + 1])
  {
    hide FirstUse, Inverse, InOrder;
    InversePush(labels, vals, l);
    InOrderPush(branches, i, labels, l);
  }

  lemma NumberedLater(branches: seq<Branch>, i: nat, labels: seq<string>, vals: map<string, nat>)
    requires Numbered(branches, i, labels, vals)
    ensures Numbered(branches, i + 1, labels, vals)
  {
    hide FirstUse;
  }

  lemma NoLabels(branches: seq<Branch>, internal: set<string>)
    ensures ExternalLabels([], internal) == {} && Numbered(branches, 0, [], map[])
  {
  }

  /** The loop that gives every label outside the block one value, in order of first use. */
  method CollectGotos(branches: seq<Branch>, internal: set<string>)
    returns (labels: seq<string>, gotoToVal: map<string, nat>)
    ensures gotoToVal.Keys == ExternalLabels(branches, internal)
    ensures Numbered(branches, |branches|, labels, gotoToVal)
  {
    labels, gotoToVal := [], map[];
    hide ExternalLabels, Numbered;
    NoLabels(branches, internal);
    for i := 0 to |branches|
      invariant gotoToVal.Keys == ExternalLabels(branches[..i], internal)
      invariant Numbered(branches, i, labels, gotoToVal)
    {
      ExternalStep(branches, internal, i);
      NumberedLater(branches, i, labels, gotoToVal);
      if branches[i].Straight? { continue; }
      var l := branches[i].target;
      if l in internal || l in gotoToVal { continue; }
      NewLabel(branches, internal, i);
      NumberedStep(branches, i, labels, gotoToVal, l);
      gotoToVal := gotoToVal[l := |labels| + 1];
      labels := labels + [l];
    }
    assert branches[..|branches|] == branches;
  }

  // ----------------------------------------------------------------------- the setter

  /** The case of a label: the constant operand num goes to the jump-target operand o. */
  function CaseFinal(l: string, end: string, o: nat, num: nat): seq<Chunk> {
    [Lit(l + ":\n\tmovl "), Ref("$", num), Lit(", "), Ref("$", o), Lit("\n" + JmpEnd(end))]
  }

  function BodyFinal(labels: seq<string>, end: string, k: nat, o: nat, n: nat): seq<Chunk>
    requires k <= |labels|
  {
    if k == 0 then [Lit(JmpEnd(end))] else BodyFinal(labels, end, k - 1, o, n) + CaseFinal(labels[k - 1], end, o, n + k - 1)
  }

  /** The finished setter: label k's constant is operand n + k. */
  function SetterFinal(labels: seq<string>, end: string, o: nat, n: nat): seq<Chunk> {
    BodyFinal(labels, end, |labels|, o, n) + [Lit(end + ":\n")]
  }

  /** A hole of the setter as a number. */
  function Filled(c: Chunk, o: nat, n: nat): Chunk {
    if !c.Hole? then c
    else if c.side == Out then Ref(c.pre, o + c.digit)
    else if c.digit > 0 then Ref(c.pre, n + c.digit - 1)
    else c
  }

  function FilledAll(cs: seq<Chunk>, o: nat, n: nat): seq<Chunk> {
    seq(|cs|, j requires 0 <= j < |cs| => Filled(cs[j], o, n))
  }

  lemma {:induction false} BodyFilled(labels: seq<string>, end: string, k: nat, o: nat, n: nat)
    requires k <= |labels|
    ensures FilledAll(SetterBody(labels, end, k), o, n) == BodyFinal(labels, end, k, o, n)
  {
    if k > 0 {
      BodyFilled(labels, end, k - 1, o, n);
      var a, c := SetterBody(labels, end, k - 1), SetterCase(labels[k - 1], end, k);
      CaseFilled(labels[k - 1], end, k, o, n);
      assert FilledAll(a + c, o, n) == FilledAll(a, o, n) + FilledAll(c, o, n);
    }
  }

  lemma CaseFilled(l: string, end: string, k: nat, o: nat, n: nat)
    requires k > 0
    ensures FilledAll(SetterCase(l, end, k), o, n) == CaseFinal(l, end, o, n + k - 1)
  {
  }

  lemma SetterFilled(labels: seq<string>, end: string, held: nat, o: nat, n: nat)
    requires Dense(SetterShape(labels, end, |labels|), 1, held)
    ensures FinalShape(SetterShape(labels, end, |labels|), 1, held, o, n) == SetterFinal(labels, end, o, n)
  {
    var body, last := SetterBody(labels, end, |labels|), [Lit(end + ":\n")];
    BodyFilled(labels, end, |labels|, o, n);
    assert FilledAll(body + last, o, n) == FilledAll(body, o, n) + FilledAll(last, o, n);
    var r := FinalShape(SetterShape(labels, end, |labels|), 1, held, o, n);
    forall j | 0 <= j < |r| ensures r[j] == Filled((body + last)[j], o, n) {
      assert r[j] == Resolved(SetterShape(labels, end, |labels|)[j], 1, o, n);
    }
  }

  /** Where the setter's jump target stands: behind the outputs of all statements. */
  function TargetPosition(blk: seq<seq<Piece>>): nat { OutsBefore(blk, |blk|) }

  /** Where the setter's first constant stands: behind all outputs and the inputs of all statements. */
  function ConstPosition(blk: seq<seq<Piece>>): nat { OutsBefore(blk, |blk|) + 1 + InsBefore(blk, |blk|) }

  ghost predicate ConstAt(blk: seq<seq<Piece>>, g: nat, operands: seq<Value>, constraints: seq<Constraint>) {
    var c := ConstPosition(blk) + g;
    c < |operands| && c < |constraints| && operands[c] == ConstUint(g + 1) && constraints[c] == Imm
  }

  /** The operands the setter refers to. */
  ghost predicate SetterOperands(blk: seq<seq<Piece>>, count: nat, operands: seq<Value>, constraints: seq<Constraint>) {
    var t := TargetPosition(blk);
    && t < |operands| && t < |constraints| && operands[t] == JumpTarget && constraints[t] == MemOut
    && forall g: nat :: g < count ==> ConstAt(blk, g, operands, constraints)
  }

  /** The block's statements are named, and behind them stands the setter, every reference at its own position. */
  ghost predicate NamedWithGotos(blk: seq<seq<Piece>>, labels: seq<string>, end: string, final: seq<seq<Chunk>>,
                                 operands: seq<Value>, constraints: seq<Constraint>) {
    && |final| == |blk| + 1 && AllNamed(blk, final[..|blk|], 0, operands, constraints, 1)
    && final[|blk|] == SetterFinal(labels, end, TargetPosition(blk), ConstPosition(blk))
    && SetterOperands(blk, |labels|, operands, constraints)
  }

  lemma SetterNamed(s: seq<IRAsmStmt>, shape: seq<seq<Chunk>>, held: seq<nat>, blk: seq<seq<Piece>>,
                    labels: seq<string>, end: string)
    requires Built(s, blk, 0) && |s| == |blk| + 1 && OkAt(s, shape, held, |blk|) && held[|blk|] == |labels|
    requires Good(SetterShape(labels, end, |labels|)) && s[|blk|] == SetterStmt(labels, end)
    requires shape[|blk|] == SetterShape(labels, end, |labels|)
    requires OutBase(s, |blk|) == TargetPosition(blk) && InBase(s, |blk|) == ConstPosition(blk)
    ensures FinalStmt(s, shape, held, 0, |blk|) == SetterFinal(labels, end, TargetPosition(blk), ConstPosition(blk))
    ensures SetterOperands(blk, |labels|, Operands(s), Constraints(s))
  {
    var at := |blk|;
    SetterFilled(labels, end, |labels|, OutBase(s, at), InBase(s, at));
    OutputPosition(s, 0, at, 0);
    forall g: nat | g < |labels| ensures ConstAt(blk, g, Operands(s), Constraints(s)) {
      InputPosition(s, 0, at, g);
    }
  }

  lemma SetterBehind(s: seq<IRAsmStmt>, shape: seq<seq<Chunk>>, held: seq<nat>, blk: seq<seq<Piece>>,
                     labels: seq<string>, end: string, s': seq<IRAsmStmt>, shape': seq<seq<Chunk>>, held': seq<nat>)
    requires Shaped(s, shape, held, blk, 0, |blk|) && |s| == |blk| && Good(SetterShape(labels, end, |labels|))
    requires s' == s + [SetterStmt(labels, end)] && shape' == shape + [SetterShape(labels, end, |labels|)]
    requires held' == held + [|labels|]
    ensures Shaped(s', shape', held', blk, 0, |blk|) && ExtraOuts(s', blk, 1) && Built(s', blk, 0)
    ensures OutBase(s', |blk|) == TargetPosition(blk) && InBase(s', |blk|) == ConstPosition(blk)
  {
    ShapedExtend(s, shape, held, blk, |blk|, SetterStmt(labels, end), SetterShape(labels, end, |labels|), |labels|);
    ShapedIsBuilt(s', shape', held', blk, 0);
    hide Shaped, Built;
    BuiltSummary(s', blk, 0);
    OutputCountIsBase(s', blk, 0, |blk|);
    BaseStep(s', |blk|);
    InputsAreBase(s', blk, 0, |blk|);
  }

  /** What a compiled block with branches consists of. */
  ghost predicate CompiledWithGotos(blk: seq<seq<Piece>>, labels: seq<string>, end: string, code: string,
                                    operands: seq<Value>, constraints: seq<Constraint>) {
    exists final :: NamedWithGotos(blk, labels, end, final, operands, constraints) && Spells(final, code)
  }

  /** A block whose branches leave it for the given labels: the setter is appended and named like the rest. */
  method CompileWithSetter(blk: seq<seq<Piece>>, labels: seq<string>, end: string)
    returns (code: string, operands: seq<Value>, constraints: seq<Constraint>)
    requires GoodBlock(blk) && 0 < |labels| <= 9 && PlainText(end)
    requires forall k :: 0 <= k < |labels| ==> PlainText(labels[k])
    ensures CompiledWithGotos(blk, labels, end, code, operands, constraints) && Listed(blk, 0, operands, constraints)
  {
    hide Shaped, Built, AllNamed, ExtraOuts, GoodBlock, Aligned, SetterFinal, SetterOperands;
    var b := BuildStatements(blk);
    ghost var s0, shape0, held0 := b.s, b.shape, b.held;
    b.AddGotoSetter(labels, end);
    ghost var final := FinalBlock(b.s, b.shape, b.held, 0);
    SetterBehind(s0, shape0, held0, blk, labels, end, b.s, b.shape, b.held);
    BlockNamed(b.s, b.shape, b.held, blk, 0, 1, final);
    assert final[|blk|] == FinalAt(b.s, b.shape, b.held, 0, FrontSize(0) + |blk|);
    SetterNamed(b.s, b.shape, b.held, blk, labels, end);
    ghost var stmts := b.s;
    code, operands, constraints := b.Finish();
    assert NamedWithGotos(blk, labels, end, final, operands, constraints) && Spells(final, code);
    assert Built(stmts, blk, 0) && operands == Operands(stmts) && constraints == Constraints(stmts);
  }

  /** CompoundAsmStatement_toIR for a block with branches: a setter only if one leaves the block. */
  method CompileBlockWithGotos(blk: seq<seq<Piece>>, branches: seq<Branch>, internal: set<string>, end: string)
    returns (code: string, operands: seq<Value>, constraints: seq<Constraint>,
             labels: seq<string>, gotoToVal: map<string, nat>)
    requires GoodBlock(blk) && PlainText(end) && |ExternalLabels(branches, internal)| <= 9
    requires forall l :: l in ExternalLabels(branches, internal) ==> PlainText(l)
    ensures gotoToVal.Keys == ExternalLabels(branches, internal)
    ensures Numbered(branches, |branches|, labels, gotoToVal)
    ensures Listed(blk, 0, operands, constraints)
    ensures labels == [] ==> Named(blk, 0, code, operands, constraints)
    ensures labels != [] ==> CompiledWithGotos(blk, labels, end, code, operands, constraints)
  {
    hide ExternalLabels, CompiledWithGotos, Named, Listed, GoodBlock, InOrder, LabelOk, ValOk, PlainText;
    labels, gotoToVal := CollectGotos(branches, internal);
    assert |gotoToVal.Keys| == |gotoToVal|;
    forall k | 0 <= k < |labels| ensures PlainText(labels[k]) { LabelHasValue(labels, gotoToVal, k); }
    if labels == [] {
      code, operands, constraints := CompileBlock(blk, 0);
    } else {
      code, operands, constraints := CompileWithSetter(blk, labels, end);
    }
  }
}

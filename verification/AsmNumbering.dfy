/**
  The numbering theorems for whole asm blocks: every hole ends up naming its own
  operand of the block, ties sit behind the inputs that have holes, and the tie
  numbers are right exactly when the block returns nothing by register.
 */
module AsmNumbering {
  import opened AsmText
  import opened AsmOperands
  import opened AsmBlock

  /** Outputs of the first n statements: the value of outputcount before statement n. */
  function OutsBefore(blk: seq<seq<Piece>>, n: nat): nat
    requires n <= |blk|
  {
    if n == 0 then 0 else OutsBefore(blk, n - 1) + |Select(Args(blk[n - 1]), Out)|
  }

  ghost predicate GoodStatement(ps: seq<Piece>) {
    && (forall k :: 0 <= k < |ps| ==> GoodPiece(ps[k]))
    && |Args(ps)| + |Updated(Select(Args(ps), Out), |Select(Args(ps), Out)|)| <= 10
  }

  ghost predicate GoodBlock(blk: seq<seq<Piece>>) {
    forall i :: 0 <= i < |blk| ==> GoodStatement(blk[i])
  }

  ghost function Stmt(blk: seq<seq<Piece>>, i: nat): IRAsmStmt
    requires i < |blk| && GoodStatement(blk[i])
  {
    HolesGood(blk[i]);
    Emitted(blk[i], OutsBefore(blk, i))
  }

  /** What precedes and follows the statements: ABI return registers, the goto setter. */
  ghost function Front(retn: nat): seq<IRAsmStmt> {
    if retn == 0 then [] else [IRAsmStmt("", [], [], seq(retn, _ => ReturnReg), [])]
  }

  ghost function FrontSize(retn: nat): nat { if retn == 0 then 0 else 1 }

  function Operands(s: seq<IRAsmStmt>): seq<Value> { Flatten(OutLists(s)) + Flatten(InLists(s)) }
  function Constraints(s: seq<IRAsmStmt>): seq<Constraint> { Flatten(OutCs(s)) + Flatten(InCs(s)) }

  /** Constraint lists are as long as operand lists, except for the return registers in front. */
  ghost predicate Aligned(s: seq<IRAsmStmt>, retn: nat) {
    && (retn > 0 ==> |s| > 0 && s[0] == Front(retn)[0])
    && forall i :: FrontSize(retn) <= i < |s| ==> |s[i].outC| == |s[i].outOps| && |s[i].inC| == |s[i].inOps|
  }

  lemma {:induction false} OffsetsAligned(s: seq<IRAsmStmt>, retn: nat, i: nat)
    requires Aligned(s, retn) && FrontSize(retn) <= i <= |s|
    ensures Offset(OutCs(s), i) == retn + Offset(OutLists(s), i)
    ensures Offset(InCs(s), i) == Offset(InLists(s), i)
  {
    if i > FrontSize(retn) {
      OffsetsAligned(s, retn, i - 1);
    } else if i == 1 {
      assert Offset(OutCs(s), 1) == Offset(OutCs(s), 0) + |s[0].outC|;
      assert Offset(InCs(s), 1) == Offset(InCs(s), 0) + |s[0].inC|;
      assert Offset(OutLists(s), 1) == Offset(OutLists(s), 0) + |s[0].outOps|;
      assert Offset(InLists(s), 1) == Offset(InLists(s), 0) + |s[0].inOps|;
    }
  }

  /** Output d of statement i sits at position OutBase + d, behind retn return registers. */
  lemma OutputPosition(s: seq<IRAsmStmt>, retn: nat, i: nat, d: nat)
    requires Aligned(s, retn) && FrontSize(retn) <= i < |s| && d < |s[i].outOps|
    ensures var p := OutBase(s, i) + d;
      && p < |Operands(s)| && Operands(s)[p] == s[i].outOps[d]
      && retn + p < |Constraints(s)| && Constraints(s)[retn + p] == s[i].outC[d]
  {
    FlattenAt(OutLists(s), i, d);
    FlattenAt(OutCs(s), i, d);
    OffsetsAligned(s, retn, i);
  }

  /** Input d of statement i sits behind all outputs and all earlier inputs. */
  lemma InputPosition(s: seq<IRAsmStmt>, retn: nat, i: nat, d: nat)
    requires Aligned(s, retn) && FrontSize(retn) <= i < |s| && d < |s[i].inOps|
    ensures var p := InBase(s, i) + d;
      && p < |Operands(s)| && Operands(s)[p] == s[i].inOps[d]
      && retn + p < |Constraints(s)| && Constraints(s)[retn + p] == s[i].inC[d]
  {
    FlattenSize(OutLists(s));
    FlattenSize(OutCs(s));
    FlattenAt(InLists(s), i, d);
    FlattenAt(InCs(s), i, d);
    OffsetsAligned(s, retn, i);
    OffsetsAligned(s, retn, |s|);
  }

  // ------------------------------------------------------------------ the theorem

  /** Inputs, ties included, of the first n statements. */
  function InsBefore(blk: seq<seq<Piece>>, n: nat): nat
    requires n <= |blk|
  {
    if n == 0 then 0 else InsBefore(blk, n - 1) + |Select(Args(blk[n - 1]), In)| + |UpdatedOutputs(blk[n - 1])|
  }

  /**
    Position of the operand written by piece j of statement i among all operands: outputs of all
    statements (extra ones behind the block included) come before the inputs.
   */
  function Position(blk: seq<seq<Piece>>, extra: nat, i: nat, j: nat): nat
    requires i < |blk| && j < |blk[i]| && blk[i][j].Operand?
  {
    SideRank(blk[i], j) +
    if SideOf(blk[i][j].arg) == Out then OutsBefore(blk, i) else OutsBefore(blk, |blk|) + extra + InsBefore(blk, i)
  }

  /**
    The finished chunk for piece j: text unchanged, an operand as the number of its own position,
    where the operand list has its value and the constraint list its constraint.
   */
  ghost predicate Names(c: Chunk, ps: seq<Piece>, j: nat, retn: nat, operands: seq<Value>, constraints: seq<Constraint>,
                        outBase: nat, inBase: nat)
    requires j < |ps|
  {
    match ps[j]
    case Text(t) => c == Lit(t)
    case Operand(pre, a) =>
      var n := SideRank(ps, j) + if SideOf(a) == Out then outBase else inBase;
      && c == Ref(pre, retn + n) && n < |operands| && retn + n < |constraints|
      && operands[n] == a.val
      && constraints[retn + n] == if a.mode != Input then MemOut else if a.kind == Memory then MemIn else Imm
  }

  lemma StmtShape(blk: seq<seq<Piece>>, i: nat)
    requires i < |blk| && GoodStatement(blk[i])
    ensures var ps := blk[i];
      && Good(Permuted(ps)) && StmtOk(Stmt(blk, i), Permuted(ps), |Select(Args(ps), In)|)
      && |Stmt(blk, i).outC| == |Stmt(blk, i).outOps| && |Stmt(blk, i).inC| == |Stmt(blk, i).inOps|
  {
    HolesGood(blk[i]);
    EmittedOk(blk[i], OutsBefore(blk, i));
    assert OkAt([Stmt(blk, i)], [Permuted(blk[i])], [|Select(Args(blk[i]), In)|], 0);
  }

  /** Piece j of a statement that sits at position at of the block. */
  lemma PieceNamed(ps: seq<Piece>, j: nat, s: seq<IRAsmStmt>, at: nat, retn: nat, c: Chunk)
    requires j < |ps| && Aligned(s, retn) && FrontSize(retn) <= at < |s|
    requires ps[j].Operand? ==> OperandAt(s[at], SideOf(ps[j].arg), SideRank(ps, j), ps[j].arg)
    requires Dense(Permuted(ps), |Select(Args(ps), Out)|, |Select(Args(ps), In)|)
    requires c == FinalShape(Permuted(ps), |Select(Args(ps), Out)|, |Select(Args(ps), In)|,
                             retn + OutBase(s, at), retn + InBase(s, at))[j]
    ensures Names(c, ps, j, retn, Operands(s), Constraints(s), OutBase(s, at), InBase(s, at))
  {
    if ps[j].Operand? { OperandNamed(ps, j, s, at, retn, c); }
  }

  lemma OperandNamed(ps: seq<Piece>, j: nat, s: seq<IRAsmStmt>, at: nat, retn: nat, c: Chunk)
    requires j < |ps| && ps[j].Operand? && Aligned(s, retn) && FrontSize(retn) <= at < |s|
    requires OperandAt(s[at], SideOf(ps[j].arg), SideRank(ps, j), ps[j].arg)
    requires Dense(Permuted(ps), |Select(Args(ps), Out)|, |Select(Args(ps), In)|)
    requires c == FinalShape(Permuted(ps), |Select(Args(ps), Out)|, |Select(Args(ps), In)|,
                             retn + OutBase(s, at), retn + InBase(s, at))[j]
    ensures Names(c, ps, j, retn, Operands(s), Constraints(s), OutBase(s, at), InBase(s, at))
  {
    hide FinalShape, Aligned, Dense, Permuted, Operands, Constraints, SideRank, OutBase, InBase, OperandAt, Select;
    ResolvedOperand(ps, j, retn + OutBase(s, at), retn + InBase(s, at));
    OperandPosition(s, retn, at, SideOf(ps[j].arg), SideRank(ps, j), ps[j].arg);
  }

  lemma OperandPosition(s: seq<IRAsmStmt>, retn: nat, at: nat, side: Side, d: nat, a: Arg)
    requires Aligned(s, retn) && FrontSize(retn) <= at < |s| && side == SideOf(a)
    requires OperandAt(s[at], side, d, a)
    ensures var p := (if side == Out then OutBase(s, at) else InBase(s, at)) + d;
      && p < |Operands(s)| && retn + p < |Constraints(s)| && Operands(s)[p] == a.val
      && Constraints(s)[retn + p] == if a.mode == Input then InConstraint(a) else MemOut
  {
    if side == Out { OutputPosition(s, retn, at, d); } else { InputPosition(s, retn, at, d); }
  }

  ghost predicate OperandAt(st: IRAsmStmt, side: Side, d: nat, a: Arg) {
    if side == Out then d < |st.outOps| == |st.outC| && st.outOps[d] == a.val && st.outC[d] == MemOut
    else d < |st.inOps| == |st.inC| && st.inOps[d] == a.val && st.inC[d] == InConstraint(a)
  }

  /** How many operands of the same side precede the operand of piece j. */
  function SideRank(ps: seq<Piece>, j: nat): nat
    requires j < |ps| && ps[j].Operand?
  {
    ArgsAt(ps, j);
    Count(Args(ps), SideOf(ps[j].arg), NumOps(ps, j))
  }

  /** Where the operand of piece j sits among the operands of its own statement. */
  lemma OperandOfStmt(blk: seq<seq<Piece>>, i: nat, j: nat)
    requires i < |blk| && GoodStatement(blk[i]) && j < |blk[i]| && blk[i][j].Operand?
    ensures OperandAt(Stmt(blk, i), SideOf(blk[i][j].arg), SideRank(blk[i], j), blk[i][j].arg)
  {
    StmtShape(blk, i);
    ArgsAt(blk[i], j);
    var args, k := Args(blk[i]), NumOps(blk[i], j);
    SelectAt(args, SideOf(args[k]), k);
  }

  lemma ResolvedOperand(ps: seq<Piece>, j: nat, outBase: nat, inBase: nat)
    requires j < |ps| && ps[j].Operand?
    requires Dense(Permuted(ps), |Select(Args(ps), Out)|, |Select(Args(ps), In)|)
    ensures FinalShape(Permuted(ps), |Select(Args(ps), Out)|, |Select(Args(ps), In)|, outBase, inBase)[j]
         == Ref(ps[j].pre, (if SideOf(ps[j].arg) == Out then outBase else inBase) + SideRank(ps, j))
  {
    ArgsAt(ps, j);
    SelectSize(Args(ps), Out);
    assert Permuted(ps)[j] == PermutedChunk(ps, j);
  }

  ghost predicate StmtNamed(cs: seq<Chunk>, ps: seq<Piece>, retn: nat, operands: seq<Value>, constraints: seq<Constraint>,
                            outBase: nat, inBase: nat) {
    && |cs| == |ps| && Good(cs)
    && forall j: nat :: j < |ps| ==> Names(cs[j], ps, j, retn, operands, constraints, outBase, inBase)
  }

  /** Every statement of blk with its operands as numbers of their positions. */
  ghost predicate AllNamed(blk: seq<seq<Piece>>, final: seq<seq<Chunk>>, retn: nat,
                           operands: seq<Value>, constraints: seq<Constraint>, extra: nat) {
    |final| == |blk| && forall i: nat :: i < |blk| ==> NamedAt(blk, final[i], retn, operands, constraints, extra, i)
  }

  ghost predicate NamedAt(blk: seq<seq<Piece>>, cs: seq<Chunk>, retn: nat,
                          operands: seq<Value>, constraints: seq<Constraint>, extra: nat, i: nat) {
    i < |blk| && StmtNamed(cs, blk[i], retn, operands, constraints, OutsBefore(blk, i),
                           OutsBefore(blk, |blk|) + extra + InsBefore(blk, i))
  }

  /** The number written for an operand is its position. */
  lemma NumberIsPosition(blk: seq<seq<Piece>>, final: seq<seq<Chunk>>, retn: nat,
                         operands: seq<Value>, constraints: seq<Constraint>, extra: nat, i: nat, j: nat)
    requires AllNamed(blk, final, retn, operands, constraints, extra)
    requires i < |blk| && j < |blk[i]| && blk[i][j].Operand?
    ensures j < |final[i]| && final[i][j] == Ref(blk[i][j].pre, retn + Position(blk, extra, i, j))
  {
    assert NamedAt(blk, final[i], retn, operands, constraints, extra, i);
    assert Names(final[i][j], blk[i], j, retn, operands, constraints, OutsBefore(blk, i),
                 OutsBefore(blk, |blk|) + extra + InsBefore(blk, i));
  }

  // ----------------------------------------------------- positions tell operands apart

  lemma SideRankBelow(ps: seq<Piece>, j: nat)
    requires j < |ps| && ps[j].Operand?
    ensures SideRank(ps, j) < |Select(Args(ps), SideOf(ps[j].arg))|
  {
    ArgsAt(ps, j);
    SelectAt(Args(ps), SideOf(ps[j].arg), NumOps(ps, j));
  }

  lemma SideRankLess(ps: seq<Piece>, j: nat, k: nat)
    requires j < k < |ps| && ps[j].Operand? && ps[k].Operand? && SideOf(ps[j].arg) == SideOf(ps[k].arg)
    ensures SideRank(ps, j) < SideRank(ps, k)
  {
    ArgsAt(ps, j);
    ArgsAt(ps, k);
    NumOpsMono(ps, j + 1, k);
    CountMono(Args(ps), SideOf(ps[j].arg), NumOps(ps, j), NumOps(ps, k));
  }

  lemma {:induction false} BeforeMono(blk: seq<seq<Piece>>, i: nat, k: nat)
    requires i < k <= |blk|
    ensures OutsBefore(blk, i) + |Select(Args(blk[i]), Out)| <= OutsBefore(blk, k)
    ensures InsBefore(blk, i) + |Select(Args(blk[i]), In)| <= InsBefore(blk, k)
  {
    if i + 1 < k { BeforeMono(blk, i, k - 1); }
  }

  /** Different operands of a block have different positions, also where their values are equal. */
  lemma PositionInjective(blk: seq<seq<Piece>>, extra: nat, i: nat, j: nat, i': nat, j': nat)
    requires i < |blk| && j < |blk[i]| && blk[i][j].Operand?
    requires i' < |blk| && j' < |blk[i']| && blk[i'][j'].Operand?
    requires i < i' || (i == i' && j < j')
    ensures Position(blk, extra, i, j) != Position(blk, extra, i', j')
  {
    SideRankBelow(blk[i], j);
    SideRankBelow(blk[i'], j');
    BeforeMono(blk, i, |blk|);
    BeforeMono(blk, i', |blk|);
    if i < i' {
      BeforeMono(blk, i, i');
    } else if SideOf(blk[i][j].arg) == SideOf(blk[i'][j'].arg) {
      SideRankLess(blk[i], j, j');
    }
  }

  // --------------------------------------------------------------- whole blocks

  /** The list of statements s was built from blk: statement i follows the return registers. */
  ghost predicate StmtAt(s: seq<IRAsmStmt>, blk: seq<seq<Piece>>, retn: nat, i: nat) {
    i < |blk| && FrontSize(retn) + i < |s| && GoodStatement(blk[i]) && s[FrontSize(retn) + i] == Stmt(blk, i)
  }

  ghost predicate Built(s: seq<IRAsmStmt>, blk: seq<seq<Piece>>, retn: nat) {
    Aligned(s, retn) && forall i: nat :: i < |blk| ==> StmtAt(s, blk, retn, i)
  }

  ghost predicate ShapeAt(s: seq<IRAsmStmt>, shape: seq<seq<Chunk>>, held: seq<nat>,
                          blk: seq<seq<Piece>>, retn: nat, i: nat) {
    && StmtAt(s, blk, retn, i) && FrontSize(retn) + i < |shape| && FrontSize(retn) + i < |held|
    && shape[FrontSize(retn) + i] == Permuted(blk[i]) && held[FrontSize(retn) + i] == |Select(Args(blk[i]), In)|
  }

  /** The first n statements of blk stand behind the return registers. */
  ghost predicate Shaped(s: seq<IRAsmStmt>, shape: seq<seq<Chunk>>, held: seq<nat>,
                         blk: seq<seq<Piece>>, retn: nat, n: nat) {
    && n <= |blk| && |s| == |shape| == |held| && Aligned(s, retn)
    && (retn > 0 ==> |shape| > 0 && shape[0] == [])
    && forall i: nat :: i < n ==> ShapeAt(s, shape, held, blk, retn, i)
  }

  lemma ShapedSnoc(s: seq<IRAsmStmt>, shape: seq<seq<Chunk>>, held: seq<nat>, blk: seq<seq<Piece>>, n: nat)
    requires Shaped(s, shape, held, blk, 0, n) && n < |blk| && |s| == n && GoodStatement(blk[n])
    ensures Shaped(s + [Stmt(blk, n)], shape + [Permuted(blk[n])], held + [|Select(Args(blk[n]), In)|], blk, 0, n + 1)
  {
    var s', shape', held' := s + [Stmt(blk, n)], shape + [Permuted(blk[n])], held + [|Select(Args(blk[n]), In)|];
    StmtShape(blk, n);
    forall i: nat | i < n + 1 ensures ShapeAt(s', shape', held', blk, 0, i) {
      if i < n { assert ShapeAt(s, shape, held, blk, 0, i); }
    }
  }

  /** Statements behind the block's own, such as the goto setter, disturb nothing. */
  lemma ShapedExtend(s: seq<IRAsmStmt>, shape: seq<seq<Chunk>>, held: seq<nat>, blk: seq<seq<Piece>>, n: nat,
                     st: IRAsmStmt, cs: seq<Chunk>, h: nat)
    requires Shaped(s, shape, held, blk, 0, n) && |st.outC| == |st.outOps| && |st.inC| == |st.inOps|
    ensures Shaped(s + [st], shape + [cs], held + [h], blk, 0, n)
  {
    forall i: nat | i < n ensures ShapeAt(s + [st], shape + [cs], held + [h], blk, 0, i) {
      assert ShapeAt(s, shape, held, blk, 0, i);
    }
  }

  lemma ShapedFront(s: seq<IRAsmStmt>, shape: seq<seq<Chunk>>, held: seq<nat>, blk: seq<seq<Piece>>, n: nat, retn: nat)
    requires Shaped(s, shape, held, blk, 0, n) && retn > 0
    ensures Shaped(Front(retn) + s, [[]] + shape, [0] + held, blk, retn, n)
  {
    var s', shape', held' := Front(retn) + s, [[]] + shape, [0] + held;
    forall i: nat | i < n ensures ShapeAt(s', shape', held', blk, retn, i) {
      assert ShapeAt(s, shape, held, blk, 0, i);
    }
    forall i | 1 <= i < |s'| ensures |s'[i].outC| == |s'[i].outOps| && |s'[i].inC| == |s'[i].inOps| {
      assert s'[i] == s[i - 1];
    }
  }

  lemma ShapedIsBuilt(s: seq<IRAsmStmt>, shape: seq<seq<Chunk>>, held: seq<nat>, blk: seq<seq<Piece>>, retn: nat)
    requires Shaped(s, shape, held, blk, retn, |blk|)
    ensures Built(s, blk, retn)
  {
    forall i: nat | i < |blk| ensures StmtAt(s, blk, retn, i) { assert ShapeAt(s, shape, held, blk, retn, i); }
  }

  /** After both passes statement i names its operands. */
  lemma StatementNamed(s: seq<IRAsmStmt>, shape: seq<seq<Chunk>>, held: seq<nat>,
                       blk: seq<seq<Piece>>, retn: nat, i: nat)
    requires AllOk(s, shape, held) && Shaped(s, shape, held, blk, retn, |blk|) && i < |blk|
    ensures OkAt(s, shape, held, FrontSize(retn) + i)
    ensures StmtNamed(FinalStmt(s, shape, held, retn, FrontSize(retn) + i), blk[i], retn, Operands(s), Constraints(s),
                      OutBase(s, FrontSize(retn) + i), InBase(s, FrontSize(retn) + i))
  {
    var at, ps := FrontSize(retn) + i, blk[i];
    OperandsInPlace(s, shape, held, blk, retn, i);
    SecondPass(s, shape, held, retn, at);
    hide OperandsAt, StmtNamed, Names, OutBase, InBase, Select, Args, Good;
    var cs := FinalStmt(s, shape, held, retn, at);
    assert cs == FinalShape(Permuted(ps), |Select(Args(ps), Out)|, |Select(Args(ps), In)|,
                            retn + OutBase(s, at), retn + InBase(s, at));
    PiecesNamed(ps, s, at, retn, cs);
  }

  ghost predicate OperandsAt(st: IRAsmStmt, ps: seq<Piece>) {
    forall j: nat :: j < |ps| && ps[j].Operand? ==> OperandAt(st, SideOf(ps[j].arg), SideRank(ps, j), ps[j].arg)
  }

  lemma OperandsInPlace(s: seq<IRAsmStmt>, shape: seq<seq<Chunk>>, held: seq<nat>,
                        blk: seq<seq<Piece>>, retn: nat, i: nat)
    requires Shaped(s, shape, held, blk, retn, |blk|) && i < |blk|
    ensures var at, ps := FrontSize(retn) + i, blk[i];
      && at < |s| && OperandsAt(s[at], ps) && |s[at].outOps| == |Select(Args(ps), Out)|
      && shape[at] == Permuted(ps) && held[at] == |Select(Args(ps), In)|
  {
    assert ShapeAt(s, shape, held, blk, retn, i);
    OutsOfStmt(blk, i);
    forall j: nat | j < |blk[i]| && blk[i][j].Operand?
      ensures OperandAt(s[FrontSize(retn) + i], SideOf(blk[i][j].arg), SideRank(blk[i], j), blk[i][j].arg)
    {
      OperandAtStmt(s, blk, retn, i, j);
    }
  }

  lemma PiecesNamed(ps: seq<Piece>, s: seq<IRAsmStmt>, at: nat, retn: nat, cs: seq<Chunk>)
    requires Aligned(s, retn) && FrontSize(retn) <= at < |s| && OperandsAt(s[at], ps) && Good(cs)
    requires Dense(Permuted(ps), |Select(Args(ps), Out)|, |Select(Args(ps), In)|)
    requires cs == FinalShape(Permuted(ps), |Select(Args(ps), Out)|, |Select(Args(ps), In)|,
                              retn + OutBase(s, at), retn + InBase(s, at))
    ensures StmtNamed(cs, ps, retn, Operands(s), Constraints(s), OutBase(s, at), InBase(s, at))
  {
    forall j: nat | j < |ps| ensures Names(cs[j], ps, j, retn, Operands(s), Constraints(s), OutBase(s, at), InBase(s, at)) {
      PieceNamed(ps, j, s, at, retn, cs[j]);
    }
  }

  lemma OperandAtStmt(s: seq<IRAsmStmt>, blk: seq<seq<Piece>>, retn: nat, i: nat, j: nat)
    requires StmtAt(s, blk, retn, i) && j < |blk[i]|
    ensures blk[i][j].Operand? ==>
      OperandAt(s[FrontSize(retn) + i], SideOf(blk[i][j].arg), SideRank(blk[i], j), blk[i][j].arg)
  {
    if blk[i][j].Operand? { OperandOfStmt(blk, i, j); }
  }

  // ------------------------------------------------------------------------- ties

  /** What the tie theorems need of a built block: output counts and ties, statement by statement. */
  ghost predicate OutsAt(s: seq<IRAsmStmt>, blk: seq<seq<Piece>>, retn: nat, i: nat) {
    i < |blk| && FrontSize(retn) + i < |s| && |s[FrontSize(retn) + i].outOps| == |Select(Args(blk[i]), Out)|
  }

  ghost predicate TieAt(s: seq<IRAsmStmt>, blk: seq<seq<Piece>>, retn: nat, i: nat, k: nat) {
    HasTie(blk, i, k) && FrontSize(retn) + i < |s| && TieInStmt(s[FrontSize(retn) + i], blk, i, k)
  }

  ghost predicate Summary(s: seq<IRAsmStmt>, blk: seq<seq<Piece>>, retn: nat) {
    && Aligned(s, retn) && FrontSize(retn) <= |s|
    && (forall i: nat :: i < |blk| ==> OutsAt(s, blk, retn, i))
    && (forall i: nat, k: nat :: HasTie(blk, i, k) ==> TieAt(s, blk, retn, i, k))
  }

  lemma BuiltSummary(s: seq<IRAsmStmt>, blk: seq<seq<Piece>>, retn: nat)
    requires Built(s, blk, retn)
    ensures Summary(s, blk, retn)
  {
    forall i: nat | i < |blk| ensures OutsAt(s, blk, retn, i) {
      assert StmtAt(s, blk, retn, i);
      OutsOfStmt(blk, i);
    }
    forall i: nat, k: nat | HasTie(blk, i, k) ensures TieAt(s, blk, retn, i, k) {
      assert StmtAt(s, blk, retn, i);
      TieOfStmt(blk, i, k);
    }
  }

  /** outputcount always equals the outputs of all earlier statements. */
  lemma {:induction false} OutputCountIsBase(s: seq<IRAsmStmt>, blk: seq<seq<Piece>>, retn: nat, i: nat)
    requires Summary(s, blk, retn) && i <= |blk|
    ensures FrontSize(retn) + i <= |s| && OutBase(s, FrontSize(retn) + i) == OutsBefore(blk, i)
  {
    if i > 0 {
      OutputCountIsBase(s, blk, retn, i - 1);
      assert OutsAt(s, blk, retn, i - 1);
      BaseStep(s, FrontSize(retn) + i - 1);
    } else if retn > 0 {
      BaseStep(s, 0);
    }
  }

  lemma BaseStep(s: seq<IRAsmStmt>, i: nat)
    requires i < |s|
    ensures OutBase(s, i + 1) == OutBase(s, i) + |s[i].outOps|
  {
  }

  lemma OutsOfStmt(blk: seq<seq<Piece>>, i: nat)
    requires i < |blk| && GoodStatement(blk[i])
    ensures |Stmt(blk, i).outOps| == |Select(Args(blk[i]), Out)|
  {
  }

  function UpdatedOutputs(ps: seq<Piece>): seq<nat> {
    var outs := Select(Args(ps), Out);
    Updated(outs, |outs|)
  }

  ghost predicate HasTie(blk: seq<seq<Piece>>, i: nat, k: nat) {
    i < |blk| && k < |UpdatedOutputs(blk[i])|
  }

  /** Position, in the final constraint list, of the k-th tied input of statement i. */
  ghost function TiePosition(s: seq<IRAsmStmt>, blk: seq<seq<Piece>>, retn: nat, i: nat, k: nat): nat
    requires i < |blk| && FrontSize(retn) + i < |s|
  {
    retn + InBase(s, FrontSize(retn) + i) + |Select(Args(blk[i]), In)| + k
  }

  /** Position, in the final constraint list, of the output that update operand k of statement i kept. */
  ghost function OwnOutput(blk: seq<seq<Piece>>, retn: nat, i: nat, k: nat): nat
    requires i < |blk| && k < |UpdatedOutputs(blk[i])|
  {
    retn + OutsBefore(blk, i) + UpdatedOutputs(blk[i])[k]
  }

  /** Positions of output u and input d of one statement in the whole lists. */
  lemma PairPosition(s: seq<IRAsmStmt>, retn: nat, at: nat, u: nat, d: nat)
    requires Aligned(s, retn) && FrontSize(retn) <= at < |s| && u < |s[at].outOps| && d < |s[at].inOps|
    requires s[at].inOps[d] == s[at].outOps[u] && d < |s[at].inC| && u < |s[at].outC|
    requires s[at].outC[u] == MemOut && s[at].inC[d] == Tie(u + OutBase(s, at))
    ensures TieFacts(s, retn, retn + InBase(s, at) + d, retn + OutBase(s, at) + u)
  {
    OutputPosition(s, retn, at, u);
    InputPosition(s, retn, at, d);
    OutputsBeforeInputs(s, at, u);
  }

  /** The tie at t repeats the value of the output at o, and its number is short by exactly retn. */
  ghost predicate TieFacts(s: seq<IRAsmStmt>, retn: nat, t: nat, o: nat) {
    && retn <= o < t < |Constraints(s)| && t - retn < |Operands(s)|
    && Operands(s)[t - retn] == Operands(s)[o - retn]
    && Constraints(s)[o] == MemOut && Constraints(s)[t] == Tie(o - retn)
  }

  /** A tie carries the value of its own output and a number that is short by exactly retn. */
  lemma TieValue(s: seq<IRAsmStmt>, blk: seq<seq<Piece>>, retn: nat, i: nat, k: nat)
    requires Summary(s, blk, retn) && HasTie(blk, i, k)
    ensures FrontSize(retn) + i < |s|
    ensures TieFacts(s, retn, TiePosition(s, blk, retn, i, k), OwnOutput(blk, retn, i, k))
  {
    assert TieAt(s, blk, retn, i, k);
    OutputCountIsBase(s, blk, retn, i);
    var at, u, d := FrontSize(retn) + i, UpdatedOutputs(blk[i])[k], |Select(Args(blk[i]), In)| + k;
    assert TiePosition(s, blk, retn, i, k) == retn + InBase(s, at) + d;
    assert OwnOutput(blk, retn, i, k) == retn + OutBase(s, at) + u;
    PairPosition(s, retn, at, u, d);
  }

  ghost predicate TieInStmt(st: IRAsmStmt, blk: seq<seq<Piece>>, i: nat, k: nat)
    requires HasTie(blk, i, k)
  {
    var u, d := UpdatedOutputs(blk[i])[k], |Select(Args(blk[i]), In)| + k;
    && u < |st.outOps| && d < |st.inOps| == |st.inC| && u < |st.outC|
    && st.inOps[d] == st.outOps[u] && st.outC[u] == MemOut && st.inC[d] == Tie(u + OutsBefore(blk, i))
  }

  /** Ties sit behind all inputs that have holes, in the order of their outputs. */
  lemma TieOfStmt(blk: seq<seq<Piece>>, i: nat, k: nat)
    requires HasTie(blk, i, k) && GoodStatement(blk[i])
    ensures TieInStmt(Stmt(blk, i), blk, i, k)
  {
    var st, ins, outs := Stmt(blk, i), Select(Args(blk[i]), In), Select(Args(blk[i]), Out);
    assert st.inOps == Vals(ins) + TieVals(outs, |outs|);
    assert st.inC == InConstraints(ins) + TieConstraints(outs, |outs|, OutsBefore(blk, i));
    assert st.inOps[|ins| + k] == TieVals(outs, |outs|)[k];
    assert st.inC[|ins| + k] == TieConstraints(outs, |outs|, OutsBefore(blk, i))[k];
  }

  lemma OutputsBeforeInputs(s: seq<IRAsmStmt>, at: nat, u: nat)
    requires at < |s| && u < |s[at].outOps|
    ensures OutBase(s, at) + u < InBase(s, at)
  {
    FlattenSize(OutLists(s));
    FlattenAt(OutLists(s), at, u);
  }

  /** The tie of update operand k names the output it came from. */
  ghost predicate TieRight(s: seq<IRAsmStmt>, blk: seq<seq<Piece>>, retn: nat, i: nat, k: nat)
    requires HasTie(blk, i, k)
  {
    && FrontSize(retn) + i < |s|
    && var t := TiePosition(s, blk, retn, i, k);
       t < |Constraints(s)| && Constraints(s)[t] == Tie(OwnOutput(blk, retn, i, k))
  }

  /** Ties are right exactly in blocks without return registers (or without ties). */
  lemma TiesRightIffNoReturn(s: seq<IRAsmStmt>, blk: seq<seq<Piece>>, retn: nat)
    requires Built(s, blk, retn)
    ensures (forall i: nat, k: nat :: HasTie(blk, i, k) ==> TieRight(s, blk, retn, i, k))
       <==> (retn == 0 || forall i: nat, k: nat :: !HasTie(blk, i, k))
  {
    BuiltSummary(s, blk, retn);
    forall i: nat, k: nat | HasTie(blk, i, k) ensures TieRight(s, blk, retn, i, k) <==> retn == 0 {
      TieValue(s, blk, retn, i, k);
    }
  }

  /** One statement with one update operand. */
  function OneUpdate(v: Value): seq<seq<Piece>> { [[Operand("$", Arg(Memory, Update, v))]] }

  /** The smallest failing block: with return registers its tie names a register instead of its output. */
  lemma OneUpdateTie(v: Value, retn: nat)
    requires retn > 0
    ensures var blk := OneUpdate(v);
      GoodBlock(blk) && HasTie(blk, 0, 0) && OwnOutput(blk, retn, 0, 0) == retn
      && var s := Front(retn) + [Stmt(blk, 0)];
        Built(s, blk, retn) && !TieRight(s, blk, retn, 0, 0)
        && TiePosition(s, blk, retn, 0, 0) < |Constraints(s)|
        && Constraints(s)[TiePosition(s, blk, retn, 0, 0)] == Tie(0)
  {
    var blk := OneUpdate(v);
    OneUpdateShape(v);
    var s := Front(retn) + [Stmt(blk, 0)];
    StmtShape(blk, 0);
    assert StmtAt(s, blk, retn, 0);
    hide Stmt, GoodStatement, Constraints, Operands;
    BuiltSummary(s, blk, retn);
    TieValue(s, blk, retn, 0, 0);
  }

  lemma OneUpdateSelect(a: Arg)
    requires a.mode == Update
    ensures Select([a], Out) == [a] && Select([a], In) == [] && Updated([a], 1) == [0]
  {
    assert [a][..0] == [] && Select([], Out) == [] && Select([], In) == [] && Updated([a], 0) == [];
  }

  lemma OneUpdateArgs(pre: string, a: Arg)
    ensures Args([Operand(pre, a)]) == [a]
  {
    var ps := [Operand(pre, a)];
    assert ps[..0] == [] && Args([]) == [];
  }

  lemma OneUpdateShape(v: Value)
    ensures var blk := OneUpdate(v);
      GoodBlock(blk) && UpdatedOutputs(blk[0]) == [0] && OutsBefore(blk, 0) == 0
  {
    var a := Arg(Memory, Update, v);
    OneUpdateSelect(a);
    OneUpdateArgs("$", a);
    hide Args, Select, Updated;
    assert GoodPiece(Operand("$", a));
  }

  // -------------------------------------------------------------- compiling a block

  ghost function Texts(css: seq<seq<Chunk>>): seq<string>
    requires forall i :: 0 <= i < |css| ==> Good(css[i])
  {
    seq(|css|, i requires 0 <= i < |css| => Render(css[i]))
  }

  lemma {:induction false} JoinFront(ls: seq<string>)
    ensures Join([""] + ls) == Join(ls)
  {
    var m := [""] + ls;
    if ls == [] {
      assert m[..0] == [];
    } else {
      JoinFront(ls[..|ls| - 1]);
      assert m[..|m| - 1] == [""] + ls[..|ls| - 1];
    }
  }

  ghost function FinalAt(s: seq<IRAsmStmt>, shape: seq<seq<Chunk>>, held: seq<nat>, retn: nat, at: nat): (r: seq<Chunk>)
    requires AllOk(s, shape, held) && at < |s|
    ensures OkAt(s, shape, held, at) && r == FinalStmt(s, shape, held, retn, at) && Good(r)
  {
    SecondPass(s, shape, held, retn, at);
    FinalStmt(s, shape, held, retn, at)
  }

  /** The finished statements without the return registers in front. */
  ghost function FinalBlock(s: seq<IRAsmStmt>, shape: seq<seq<Chunk>>, held: seq<nat>, retn: nat): (r: seq<seq<Chunk>>)
    requires AllOk(s, shape, held) && FrontSize(retn) <= |s|
    ensures |r| == |s| - FrontSize(retn)
    ensures forall i :: 0 <= i < |r| ==> r[i] == FinalAt(s, shape, held, retn, FrontSize(retn) + i)
  {
    seq(|s| - FrontSize(retn), i requires 0 <= i < |s| - FrontSize(retn) => FinalAt(s, shape, held, retn, FrontSize(retn) + i))
  }

  lemma FinalTextIsJoin(s: seq<IRAsmStmt>, shape: seq<seq<Chunk>>, held: seq<nat>, retn: nat)
    requires AllOk(s, shape, held) && FrontSize(retn) <= |s| && (retn > 0 ==> shape[0] == [])
    ensures FinalText(s, shape, held, retn) == Join(Texts(FinalBlock(s, shape, held, retn)))
  {
    var lines, texts := FinalLines(s, shape, held, retn), Texts(FinalBlock(s, shape, held, retn));
    if retn > 0 {
      SecondPass(s, shape, held, retn, 0);
      assert lines[0] == "";
      assert lines == [""] + texts;
      JoinFront(texts);
    } else {
      assert lines == texts;
    }
  }

  lemma InsAt(s: seq<IRAsmStmt>, blk: seq<seq<Piece>>, retn: nat, i: nat)
    requires Built(s, blk, retn) && i < |blk|
    ensures FrontSize(retn) + i < |s|
    ensures |s[FrontSize(retn) + i].inOps| == |Select(Args(blk[i]), In)| + |UpdatedOutputs(blk[i])|
  {
    hide Stmt, GoodStatement;
    assert StmtAt(s, blk, retn, i);
    InsOfStmt(blk, i);
  }

  lemma NoInputsInFront(s: seq<IRAsmStmt>, blk: seq<seq<Piece>>, retn: nat)
    requires Built(s, blk, retn) && retn > 0
    ensures |s| > 0 && s[0].inOps == []
  {
  }

  /** Inputs of all earlier statements. */
  lemma {:induction false} InputsAreBase(s: seq<IRAsmStmt>, blk: seq<seq<Piece>>, retn: nat, i: nat)
    requires Built(s, blk, retn) && i <= |blk| && FrontSize(retn) <= |s|
    ensures FrontSize(retn) + i <= |s| && Offset(InLists(s), FrontSize(retn) + i) == InsBefore(blk, i)
  {
    hide Built, Select, Args, UpdatedOutputs, InLists;
    if i > 0 {
      InputsAreBase(s, blk, retn, i - 1);
      InsAt(s, blk, retn, i - 1);
      InStep(s, FrontSize(retn) + i - 1);
    } else if retn > 0 {
      NoInputsInFront(s, blk, retn);
      InStep(s, 0);
    }
  }

  lemma InStep(s: seq<IRAsmStmt>, i: nat)
    requires i < |s|
    ensures Offset(InLists(s), i + 1) == Offset(InLists(s), i) + |s[i].inOps|
  {
  }

  lemma InsOfStmt(blk: seq<seq<Piece>>, i: nat)
    requires i < |blk| && GoodStatement(blk[i])
    ensures |Stmt(blk, i).inOps| == |Select(Args(blk[i]), In)| + |UpdatedOutputs(blk[i])|
  {
  }

  /** Outputs of the statements behind the block's own. */
  ghost predicate ExtraOuts(s: seq<IRAsmStmt>, blk: seq<seq<Piece>>, extra: nat) {
    OutBase(s, |s|) == OutsBefore(blk, |blk|) + extra
  }

  lemma BasesArePositions(s: seq<IRAsmStmt>, blk: seq<seq<Piece>>, retn: nat, extra: nat, i: nat)
    requires Built(s, blk, retn) && FrontSize(retn) <= |s| && ExtraOuts(s, blk, extra) && i < |blk|
    ensures FrontSize(retn) + i <= |s| && OutBase(s, FrontSize(retn) + i) == OutsBefore(blk, i)
    ensures InBase(s, FrontSize(retn) + i) == OutsBefore(blk, |blk|) + extra + InsBefore(blk, i)
  {
    BuiltSummary(s, blk, retn);
    OutputCountIsBase(s, blk, retn, i);
    InputsAreBase(s, blk, retn, i);
  }

  lemma NothingBehind(s: seq<IRAsmStmt>, shape: seq<seq<Chunk>>, held: seq<nat>, blk: seq<seq<Piece>>, retn: nat)
    requires Shaped(s, shape, held, blk, retn, |blk|) && |s| == FrontSize(retn) + |blk|
    ensures Built(s, blk, retn) && ExtraOuts(s, blk, 0)
  {
    hide Shaped, Built;
    ShapedIsBuilt(s, shape, held, blk, retn);
    BuiltSummary(s, blk, retn);
    OutputCountIsBase(s, blk, retn, |blk|);
  }

  lemma NamedHere(s: seq<IRAsmStmt>, shape: seq<seq<Chunk>>, held: seq<nat>, blk: seq<seq<Piece>>, retn: nat,
                  extra: nat, i: nat)
    requires AllOk(s, shape, held) && Shaped(s, shape, held, blk, retn, |blk|) && ExtraOuts(s, blk, extra)
    requires i < |blk| && FrontSize(retn) <= |s|
    ensures OkAt(s, shape, held, FrontSize(retn) + i)
    ensures NamedAt(blk, FinalStmt(s, shape, held, retn, FrontSize(retn) + i), retn, Operands(s), Constraints(s), extra, i)
  {
    hide Built, Shaped, StmtNamed, FinalStmt, ExtraOuts, OutsBefore, InsBefore, OutBase, InBase, Operands, Constraints, AllOk;
    StatementNamed(s, shape, held, blk, retn, i);
    ShapedIsBuilt(s, shape, held, blk, retn);
    BasesArePositions(s, blk, retn, extra, i);
  }

  /** Everything the two renumbering loops leave behind, for the statements of blk. */
  lemma BlockNamed(s: seq<IRAsmStmt>, shape: seq<seq<Chunk>>, held: seq<nat>, blk: seq<seq<Piece>>, retn: nat,
                   extra: nat, final: seq<seq<Chunk>>)
    requires AllOk(s, shape, held) && Shaped(s, shape, held, blk, retn, |blk|) && ExtraOuts(s, blk, extra)
    requires FrontSize(retn) + |blk| <= |s| && final == FinalBlock(s, shape, held, retn)
    ensures AllNamed(blk, final[..|blk|], retn, Operands(s), Constraints(s), extra)
    ensures FinalText(s, shape, held, retn) == Join(Texts(final))
  {
    FinalTextIsJoin(s, shape, held, retn) by { FrontShape(s, shape, held, blk, retn); }
    var front := final[..|blk|];
    hide Shaped, FinalStmt, ExtraOuts, NamedAt, Operands, Constraints, AllOk, OkAt;
    forall i: nat | i < |blk| ensures NamedAt(blk, front[i], retn, Operands(s), Constraints(s), extra, i) {
      assert front[i] == FinalAt(s, shape, held, retn, FrontSize(retn) + i);
      NamedHere(s, shape, held, blk, retn, extra, i);
    }
  }

  lemma FrontShape(s: seq<IRAsmStmt>, shape: seq<seq<Chunk>>, held: seq<nat>, blk: seq<seq<Piece>>, retn: nat)
    requires Shaped(s, shape, held, blk, retn, |blk|) && |s| == |shape|
    ensures retn > 0 ==> |shape| > 0 && shape[0] == []
  {
  }

  method BuildStatements(blk: seq<seq<Piece>>) returns (b: IRAsmBlock)
    requires GoodBlock(blk)
    ensures fresh(b) && b.Valid() && b.retn == 0 && |b.s| == |blk|
    ensures Shaped(b.s, b.shape, b.held, blk, 0, |blk|)
  {
    b := new IRAsmBlock();
    for i := 0 to |blk|
      invariant fresh(b) && b.Valid() && b.retn == 0 && |b.s| == i
      invariant Shaped(b.s, b.shape, b.held, blk, 0, i) && b.outputcount == OutsBefore(blk, i)
    {
      AppendStatement(b, blk, i);
    }
  }

  method AppendStatement(b: IRAsmBlock, blk: seq<seq<Piece>>, i: nat)
    requires i < |blk| && GoodStatement(blk[i]) && b.Valid() && b.retn == 0 && |b.s| == i
    requires Shaped(b.s, b.shape, b.held, blk, 0, i) && b.outputcount == OutsBefore(blk, i)
    modifies b
    ensures b.Valid() && b.retn == 0 && |b.s| == i + 1
    ensures Shaped(b.s, b.shape, b.held, blk, 0, i + 1) && b.outputcount == OutsBefore(blk, i + 1)
  {
    var template, args := FormatInstruction(blk[i]);
    ShapedSnoc(b.s, b.shape, b.held, blk, i);
    ghost var st := Stmt(blk, i);
    b.AddStatement(template, args, blk[i]);
    assert b.s == old(b.s) + [st];
  }

  /** The text is the statements of final, one per line. */
  ghost predicate Spells(final: seq<seq<Chunk>>, code: string) {
    (forall i :: 0 <= i < |final| ==> Good(final[i])) && code == Join(Texts(final))
  }

  /** The text consists of the statements of blk, every operand as a reference that names it. */
  ghost predicate Named(blk: seq<seq<Piece>>, retn: nat, code: string,
                        operands: seq<Value>, constraints: seq<Constraint>) {
    exists final :: AllNamed(blk, final, retn, operands, constraints, 0) && Spells(final, code)
  }

  /** The operand and constraint lists are those of statements built from blk. */
  ghost predicate Listed(blk: seq<seq<Piece>>, retn: nat, operands: seq<Value>, constraints: seq<Constraint>) {
    exists s :: Built(s, blk, retn) && operands == Operands(s) && constraints == Constraints(s)
  }

  /** CompoundAsmStatement_toIR for a block with retn return registers: every hole names its operand. */
  method CompileBlock(blk: seq<seq<Piece>>, retn: nat)
    returns (code: string, operands: seq<Value>, constraints: seq<Constraint>)
    requires GoodBlock(blk)
    ensures Named(blk, retn, code, operands, constraints)
    ensures Listed(blk, retn, operands, constraints)
  {
    hide Shaped, Built, AllNamed, ExtraOuts, GoodBlock, Aligned, OkAt;
    var b := BuildStatements(blk);
    if retn > 0 {
      ShapedFront(b.s, b.shape, b.held, blk, |blk|, retn);
      b.EmitAbiReturn(retn);
    }
    ghost var stmts := b.s;
    ghost var final := FinalBlock(stmts, b.shape, b.held, retn);
    NothingBehind(stmts, b.shape, b.held, blk, retn);
    BlockNamed(stmts, b.shape, b.held, blk, retn, 0, final);
    assert final[..|blk|] == final;
    code, operands, constraints := b.Finish();
    assert AllNamed(blk, final, retn, operands, constraints, 0) && Spells(final, code);
    assert Built(stmts, blk, retn) && operands == Operands(stmts) && constraints == Constraints(stmts);
  }
}

/**
  Operand numbering of DMD-style inline asm (ldc/gen/asmstmt.cpp, fed by addOperand
  in ldc/gen/asm-x86.h): counting functions, the chunk-level meaning of every pass
  and the counting lemmas. */
module AsmOperands {
  import opened AsmText

  /** LLVM values: opaque, except the two kinds the goto setter creates itself. */
  datatype Value = Opaque(id: nat) | ConstUint(n: nat) | JumpTarget

  datatype Kind = Integer | Pointer | Memory
  datatype Mode = Input | Output | Update
  datatype Arg = Arg(kind: Kind, mode: Mode, val: Value)

  /** What the x86 formatter appends to a template: text, or an operand behind a prefix. */
  datatype Piece = Text(text: string) | Operand(pre: string, arg: Arg)

  datatype Constraint = Imm | MemIn | MemOut | MemUpdate | Tie(output: nat) | ReturnReg

  /** Only memory operands can be written, so in/out in the hole and in arg_map agree. */
  ghost predicate GoodPiece(p: Piece) {
    match p
    case Text(t) => GoodText(t)
    case Operand(pre, a) => GoodPrefix(pre) && (a.mode == Input || a.kind == Memory)
  }

  function SideOf(a: Arg): Side { if a.mode == Input then In else Out }

  function InConstraint(a: Arg): Constraint {
    if a.kind == Memory then MemIn else Imm
  }

  // ------------------------------------------------------- operands of one statement

  function NumOps(ps: seq<Piece>, j: nat): (n: nat)
    requires j <= |ps|
    ensures n <= j
  {
    if j == 0 then 0 else NumOps(ps, j - 1) + if ps[j - 1].Operand? then 1 else 0
  }

  function Args(ps: seq<Piece>): (args: seq<Arg>)
    ensures |args| == NumOps(ps, |ps|)
  {
    if ps == [] then []
    else
      var rest, last := ps[..|ps| - 1], ps[|ps| - 1];
      NumOpsPrefix(ps, |ps| - 1, |ps| - 1);
      Args(rest) + if last.Operand? then [last.arg] else []
  }

  lemma NumOpsPrefix(ps: seq<Piece>, m: nat, j: nat)
    requires j <= m <= |ps|
    ensures NumOps(ps[..m], j) == NumOps(ps, j)
  {
  }

  lemma {:induction false} NumOpsMono(ps: seq<Piece>, i: nat, j: nat)
    requires i <= j <= |ps|
    ensures NumOps(ps, i) <= NumOps(ps, j)
  {
    if i < j { NumOpsMono(ps, i, j - 1); }
  }

  /** The j-th piece, if an operand, is argument number NumOps(ps, j). */
  lemma {:induction false} ArgsAt(ps: seq<Piece>, j: nat)
    requires j < |ps| && ps[j].Operand?
    ensures NumOps(ps, j) < |Args(ps)| && Args(ps)[NumOps(ps, j)] == ps[j].arg
  {
    NumOpsPrefix(ps, |ps| - 1, j);
    if j < |ps| - 1 { ArgsAt(ps[..|ps| - 1], j); } else { NumOpsPrefix(ps, j, j); }
  }

  /** Every argument has a piece. */
  lemma {:induction false} ArgHasPiece(ps: seq<Piece>, k: nat) returns (j: nat)
    requires k < NumOps(ps, |ps|)
    ensures j < |ps| && ps[j].Operand? && NumOps(ps, j) == k
  {
    var m := |ps| - 1;
    NumOpsPrefix(ps, m, m);
    if k < NumOps(ps, m) {
      j := ArgHasPiece(ps[..m], k);
      NumOpsPrefix(ps, m, j);
    } else {
      j := m;
    }
  }

  // -------------------------------------------------------------- selecting a side

  function Count(args: seq<Arg>, side: Side, i: nat): (n: nat)
    requires i <= |args|
    ensures n <= i
  {
    if i == 0 then 0 else Count(args, side, i - 1) + if SideOf(args[i - 1]) == side then 1 else 0
  }

  function Select(args: seq<Arg>, side: Side): seq<Arg> {
    if args == [] then []
    else
      var rest, last := args[..|args| - 1], args[|args| - 1];
      Select(rest, side) + if SideOf(last) == side then [last] else []
  }

  lemma CountPrefix(args: seq<Arg>, side: Side, m: nat, i: nat)
    requires i <= m <= |args|
    ensures Count(args[..m], side, i) == Count(args, side, i)
  {
  }

  lemma {:induction false} CountSplit(args: seq<Arg>, i: nat)
    requires i <= |args|
    ensures Count(args, In, i) + Count(args, Out, i) == i
  {
    if i > 0 { CountSplit(args, i - 1); }
  }

  lemma {:induction false} CountMono(args: seq<Arg>, side: Side, i: nat, j: nat)
    requires i <= j <= |args|
    ensures Count(args, side, i) <= Count(args, side, j)
    ensures i < j && SideOf(args[i]) == side ==> Count(args, side, i) < Count(args, side, j)
  {
    if i < j { CountMono(args, side, i, j - 1); }
  }

  lemma {:induction false} SelectSize(args: seq<Arg>, side: Side)
    ensures |Select(args, side)| == Count(args, side, |args|)
    ensures forall k :: 0 <= k < |Select(args, side)| ==> SideOf(Select(args, side)[k]) == side
  {
    if args != [] {
      SelectSize(args[..|args| - 1], side);
      CountPrefix(args, side, |args| - 1, |args| - 1);
    }
  }

  lemma {:induction false} SelectAt(args: seq<Arg>, side: Side, i: nat)
    requires i < |args| && SideOf(args[i]) == side
    ensures Count(args, side, i) < |Select(args, side)|
    ensures Select(args, side)[Count(args, side, i)] == args[i]
  {
    var m := |args| - 1;
    SelectSize(args[..m], side);
    CountPrefix(args, side, m, i);
    CountPrefix(args, side, m, m);
    if i < m { SelectAt(args[..m], side, i); }
  }

  lemma {:induction false} SelectOnto(args: seq<Arg>, side: Side, d: nat) returns (i: nat)
    requires d < Count(args, side, |args|)
    ensures i < |args| && SideOf(args[i]) == side && Count(args, side, i) == d
  {
    var m := |args| - 1;
    CountPrefix(args, side, m, m);
    if d < Count(args, side, m) {
      i := SelectOnto(args[..m], side, d);
      CountPrefix(args, side, m, i);
    } else {
      i := m;
    }
  }

  function NumOuts(args: seq<Arg>): nat { Count(args, Out, |args|) }

  /** The number a hole gets within its statement: outputs first, inputs after. */
  function ArgNumber(args: seq<Arg>, i: nat): (d: nat)
    requires i < |args|
  {
    if SideOf(args[i]) == In then NumOuts(args) + Count(args, In, i) else Count(args, Out, i)
  }

  lemma ArgNumberRange(args: seq<Arg>, i: nat)
    requires i < |args|
    ensures ArgNumber(args, i) < |args|
    ensures SideOf(args[i]) == Out <==> ArgNumber(args, i) < NumOuts(args)
  {
    CountSplit(args, |args|);
    CountMono(args, SideOf(args[i]), i, |args|);
  }

  /** Within a statement different arguments get different numbers. */
  lemma ArgNumberInjective(args: seq<Arg>, i: nat, j: nat)
    requires i < j < |args|
    ensures ArgNumber(args, i) != ArgNumber(args, j)
  {
    ArgNumberRange(args, i);
    ArgNumberRange(args, j);
    CountMono(args, SideOf(args[i]), i, j);
  }

  // ------------------------------------------------------------------ chunk passes

  ghost function Holes(ps: seq<Piece>): seq<Chunk> {
    seq(|ps|, j requires 0 <= j < |ps| =>
      match ps[j] case Text(t) => Lit(t) case Operand(pre, a) => Hole(pre, SideOf(a), NumOps(ps, j)))
  }

  ghost function Permuted(ps: seq<Piece>): seq<Chunk> {
    seq(|ps|, j requires 0 <= j < |ps| => PermutedChunk(ps, j))
  }

  ghost function PermutedChunk(ps: seq<Piece>, j: nat): Chunk
    requires j < |ps|
  {
    match ps[j]
    case Text(t) => Lit(t)
    case Operand(pre, a) => ArgsAt(ps, j); Hole(pre, SideOf(a), ArgNumber(Args(ps), NumOps(ps, j)))
  }

  ghost predicate Present(cs: seq<Chunk>, side: Side, d: nat) {
    exists k :: 0 <= k < |cs| && Matches(cs[k], side, d)
  }

  /** How many smaller digits of that side occur in the template. */
  ghost function Rank(cs: seq<Chunk>, side: Side, d: nat): nat {
    if d == 0 then 0 else Rank(cs, side, d - 1) + if Present(cs, side, d - 1) then 1 else 0
  }

  ghost function RemapChunk(cs: seq<Chunk>, side: Side, bound: nat, idx: nat, c: Chunk): Chunk {
    if c.Hole? && c.side == side && c.digit < bound then Ref(c.pre, idx + Rank(cs, side, c.digit)) else c
  }

  /** remap_args after its first `bound` digits. */
  ghost function Remap(cs: seq<Chunk>, side: Side, bound: nat, idx: nat): seq<Chunk> {
    seq(|cs|, j requires 0 <= j < |cs| => RemapChunk(cs, side, bound, idx, cs[j]))
  }

  lemma RemapGood(cs: seq<Chunk>, side: Side, bound: nat, idx: nat)
    requires Good(cs)
    ensures Good(Remap(cs, side, bound, idx))
  {
  }

  /**
    A finished statement mentions exactly the output digits 0..outs and exactly the
    input digits outs..outs+held; operands of the statement beyond those are ties.
   */
  ghost predicate Dense(cs: seq<Chunk>, outs: nat, held: nat) {
    && (forall k :: 0 <= k < |cs| && cs[k].Hole? ==>
         if cs[k].side == Out then cs[k].digit < outs else outs <= cs[k].digit < outs + held)
    && (forall k :: 0 <= k < |cs| ==> !cs[k].Ref?)
    && (forall d :: 0 <= d < outs ==> Present(cs, Out, d))
    && (forall d :: outs <= d < outs + held ==> Present(cs, In, d))
  }

  lemma {:induction false} RankOut(cs: seq<Chunk>, outs: nat, held: nat, d: nat)
    requires Dense(cs, outs, held) && d <= outs
    ensures Rank(cs, Out, d) == d
  {
    if d > 0 { RankOut(cs, outs, held, d - 1); }
  }

  /** The output pass turns no input hole into anything else. */
  lemma {:induction false} RankIn(cs: seq<Chunk>, outs: nat, held: nat, bound: nat, idx: nat, d: nat)
    requires Dense(cs, outs, held) && d <= outs + held
    ensures Rank(Remap(cs, Out, bound, idx), In, d) == if d <= outs then 0 else d - outs
  {
    var cs2 := Remap(cs, Out, bound, idx);
    if d > 0 {
      RankIn(cs, outs, held, bound, idx, d - 1);
      if d - 1 >= outs {
        assert Present(cs, In, d - 1);
        var k :| 0 <= k < |cs| && Matches(cs[k], In, d - 1);
        assert Matches(cs2[k], In, d - 1);
      }
    }
  }

  /** What both remap_args passes make of one chunk of a finished statement. */
  function Resolved(c: Chunk, outs: nat, outBase: nat, inBase: nat): Chunk
    requires c.Hole? && c.side == In ==> outs <= c.digit
  {
    if !c.Hole? then c
    else if c.side == Out then Ref(c.pre, outBase + c.digit)
    else Ref(c.pre, inBase + c.digit - outs)
  }

  lemma BothPasses(cs: seq<Chunk>, outs: nat, held: nat, bound: nat, outBase: nat, inBase: nat, j: nat)
    requires Dense(cs, outs, held) && outs + held <= bound && j < |cs|
    ensures var cs2 := Remap(cs, Out, bound, outBase);
            Remap(cs2, In, bound, inBase)[j] == Resolved(cs[j], outs, outBase, inBase)
  {
    var cs2 := Remap(cs, Out, bound, outBase);
    if cs[j].Hole? {
      if cs[j].side == Out {
        RankOut(cs, outs, held, cs[j].digit);
      } else {
        RankIn(cs, outs, held, bound, outBase, cs[j].digit);
      }
    }
  }

  lemma DigitUsed(ps: seq<Piece>, d: nat, side: Side)
    requires d < |Args(ps)| && (side == Out <==> d < NumOuts(Args(ps)))
    ensures Present(Permuted(ps), side, d)
  {
    var args := Args(ps);
    CountSplit(args, |args|);
    var i := SelectOnto(args, side, if side == Out then d else d - NumOuts(args));
    var j := ArgHasPiece(ps, i);
    ArgsAt(ps, j);
    assert Matches(Permuted(ps)[j], side, d);
  }

  /** A formatted statement is dense: the permutation leaves no digit unused. */
  lemma PermutedDense(ps: seq<Piece>)
    ensures Dense(Permuted(ps), NumOuts(Args(ps)), Count(Args(ps), In, |Args(ps)|))
  {
    var cs, args := Permuted(ps), Args(ps);
    CountSplit(args, |args|);
    forall k | 0 <= k < |cs| && cs[k].Hole?
      ensures if cs[k].side == Out then cs[k].digit < NumOuts(args) else NumOuts(args) <= cs[k].digit < |args|
    {
      ArgsAt(ps, k);
      ArgNumberRange(args, NumOps(ps, k));
    }
    forall d | 0 <= d < NumOuts(args) ensures Present(cs, Out, d) { DigitUsed(ps, d, Out); }
    forall d | NumOuts(args) <= d < |args| ensures Present(cs, In, d) { DigitUsed(ps, d, In); }
  }
}

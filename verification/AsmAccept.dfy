/**
  Which inline-assembly operands are accepted, and as what: conditions on the expression tree
  alone, by counting what it places where.
 */
module AsmAccept {
  import opened Options
  import opened AsmSyntax
  import opened AsmActions
  import opened AsmAddress

  // ------------------------------------------------------------------- what a tree holds

  /** What an expression is to the operator around it. */
  datatype Kind = Whole | ARegister | Symbolic | FieldOffset | Nothing

  function KindOf(e: Exp): Kind {
    match e
    case Missing => Nothing
    case Num(_) => Whole
    case RegExp(_) => ARegister
    case VarExp(_) => Symbolic
    case FieldExp(_) => FieldOffset
    case Neg(_) => Whole
    case Pos(_) => Whole
    case Bracket(h, _, _) => KindOf(h)
    case Mul(a, b) => Folded(KindOf(a), KindOf(b))
    case Add(a, b) => Folded(KindOf(a), KindOf(b))
    case Sub(a, b) => Folded(KindOf(a), KindOf(b))
  }

  function Folded(a: Kind, b: Kind): Kind { if a == Whole && b == Whole then Whole else Nothing }

  /** The number an expression of kind Whole stands for. */
  function Number(e: Exp): int {
    match e
    case Num(v) => v
    case Neg(x) => -Number(x)
    case Pos(x) => Number(x)
    case Bracket(h, _, _) => Number(h)
    case Mul(a, b) => Number(a) * Number(b)
    case Add(a, b) => Number(a) + Number(b)
    case Sub(a, b) => Number(a) - Number(b)
    case _ => 0
  }

  predicate IsScale(n: int) { ToInt32(Wrap(n)) in {1, 2, 4, 8} }

  /** A register and its factor. */
  predicate Scaled(ka: Kind, na: int, kb: Kind, nb: int) {
    (ka == Whole && kb == ARegister && IsScale(na)) || (ka == ARegister && kb == Whole && IsScale(nb))
  }

  /**
    Every operator has operands it can be applied to; inside: in a bracket that has not been
    interrupted by another one.
   */
  predicate Shaped(e: Exp, inside: bool) {
    match e
    case Neg(x) => Shaped(x, inside) && KindOf(x) == Whole
    case Pos(x) => Shaped(x, inside) && KindOf(x) == Whole
    case Bracket(h, i, closed) => Shaped(h, inside) && Shaped(i, true) && closed
    case Mul(a, b) =>
      Shaped(a, inside) && Shaped(b, inside && Bare(a))
      && (KindOf(a) == Whole == KindOf(b) || (inside && Bare(a) && Bare(b) && Scaled(KindOf(a), Number(a), KindOf(b), Number(b))))
    case Add(a, b) => Shaped(a, inside) && Shaped(b, inside && Bare(a))
    case Sub(a, b) => Shaped(a, inside) && Shaped(b, inside && Bare(a)) && KindOf(b) == Whole
    case _ => true
  }

  /** What an operand has room for: registers outside, inside brackets and scaled, variables; numbers outside. */
  datatype Part = OutReg | InReg | ScaledReg | Var | OutNumber

  type Tally = multiset<Part>

  const NoTally: Tally := multiset{}

  function One(k: Kind, inside: bool): Tally {
    match k
    case Whole => if inside then NoTally else multiset{OutNumber}
    case FieldOffset => if inside then NoTally else multiset{OutNumber}
    case ARegister => if inside then multiset{InReg} else multiset{OutReg}
    case Symbolic => multiset{Var}
    case Nothing => NoTally
  }

  /** What a tree contributes to the operand, what it hands on to the operator around it left out. */
  function Count(e: Exp, inside: bool): Tally {
    match e
    case Neg(x) => Count(x, inside)
    case Pos(x) => Count(x, inside)
    case Bracket(h, i, _) => Count(h, inside) + Count(i, true) + One(KindOf(i), Bare(i))
    case Mul(a, b) =>
      Count(a, inside) + Count(b, inside && Bare(a))
      + (if KindOf(a) == Whole == KindOf(b) then NoTally else multiset{ScaledReg})
    case Add(a, b) => Count(a, inside) + Count(b, inside && Bare(a)) + Two(KindOf(a), KindOf(b), inside && Bare(a) && Bare(b))
    case Sub(a, b) => Count(a, inside) + Count(b, inside && Bare(a)) + Two(KindOf(a), KindOf(b), inside && Bare(a) && Bare(b))
    case _ => NoTally
  }

  /** Two numbers are folded; any other two summands are part of the operand from here on. */
  function Two(ka: Kind, kb: Kind, still: bool): Tally {
    if ka == Whole == kb then NoTally else One(ka, still) + One(kb, still)
  }

  /** One register outside brackets; in brackets two, at most one of them scaled; one variable. */
  predicate Fits(t: Tally) {
    t[OutReg] <= 1 && t[Var] <= 1 && t[ScaledReg] <= 1 && t[InReg] + t[ScaledReg] <= 2
  }

  /** The whole operand. */
  function Placed(e: Exp): Tally { Count(e, false) + One(KindOf(e), false) }

  // ------------------------------------------------------------------- the tally's meaning

  function KindOfVal(v: Val): Kind {
    match v
    case IntVal(_) => Whole
    case RegVal(_) => ARegister
    case VarVal(_) => Symbolic
    case FieldVal(_) => FieldOffset
    case Handled => Nothing
  }

  /** The operand's fields are those of an operand with this tally. */
  ghost predicate Tallied(op: Operand, t: Tally) {
    && Fits(t)
    && (op.reg.Some? <==> t[OutReg] > 0)
    && (op.symbol.Some? <==> t[Var] > 0)
    && (op.baseReg.Some? <==> t[InReg] > 0)
    && (op.indexReg.Some? <==> t[ScaledReg] > 0 || t[InReg] > 1)
    && (op.scale != 0 <==> op.indexReg.Some?)
    && (op.hasNumber <==> t[OutNumber] > 0)
    && (op.inBracket ==> op.hasBracket)
    && (t[OutNumber] == 0 && !op.hasBracket ==> op.constDisplacement == 0)
    && -HalfWord <= op.constDisplacement < HalfWord
  }

  lemma SlotTallied(v: Val, op: Operand, t: Tally)
    requires Tallied(op, t)
    ensures var u := t + One(KindOfVal(v), op.inBracket);
      (Slot(v, op).errors == op.errors <==> Fits(u)) && (Fits(u) ==> Tallied(Slot(v, op), u))
  {
    if v.RegVal? {
      RegisterTallied(v.r, op, t);
    } else if v.VarVal? {
      VarTallied(v.s, op, t);
    } else if !v.Handled? {
      NumberTallied(v, op, t);
    }
  }

  lemma RegisterTallied(r: Reg, op: Operand, t: Tally)
    requires Tallied(op, t)
    ensures var u := t + (if op.inBracket then multiset{InReg} else multiset{OutReg});
      (Slot(RegVal(r), op).errors == op.errors <==> Fits(u)) && (Fits(u) ==> Tallied(Slot(RegVal(r), op), u))
  {
  }

  lemma VarTallied(s: Symbol, op: Operand, t: Tally)
    requires Tallied(op, t)
    ensures var u := t + multiset{Var};
      (Slot(VarVal(s), op).errors == op.errors <==> Fits(u)) && (Fits(u) ==> Tallied(Slot(VarVal(s), op), u))
  {
  }

  lemma NumberTallied(v: Val, op: Operand, t: Tally)
    requires Tallied(op, t) && (v.IntVal? || v.FieldVal?)
    ensures var u := t + (if op.inBracket then NoTally else multiset{OutNumber});
      Slot(v, op).errors == op.errors && Fits(u) && Tallied(Slot(v, op), u)
  {
    hide Cong;
  }

  lemma ScaleTallied(r: Reg, n: int, op: Operand, t: Tally)
    requires Tallied(op, t)
    ensures var u := t + multiset{ScaledReg};
      (Scale(r, n, op).errors == op.errors <==> op.inBracket && ToInt32(n) in {1, 2, 4, 8} && Fits(u))
      && (Scale(r, n, op).errors == op.errors ==> Tallied(Scale(r, n, op), u))
  {
  }

  /** What is known after a tree: accepted or not; if so, tally, kind, number and bracket state. */
  ghost predicate Known(ok: bool, c: Tally, k: Kind, n: int, bare: bool, op: Operand, t: Tally, v: Val, op1: Operand) {
    && op1.errors >= op.errors
    && (op1.errors == op.errors <==> ok && Fits(t + c))
    && (op1.errors == op.errors ==>
          Tallied(op1, t + c) && KindOfVal(v) == k && (v.IntVal? ==> v.v == Wrap(n))
          && op1.inBracket == (op.inBracket && bare))
  }

  lemma SameWrap(a: int, b: int)
    requires Cong(a, b)
    ensures Wrap(a) == Wrap(b)
  {
  }

  lemma FoldedWrap(x: int, y: int)
    ensures Wrap(Wrap(x) + Wrap(y)) == Wrap(x + y) && Wrap(Wrap(x) - Wrap(y)) == Wrap(x - y) && Wrap(-Wrap(x)) == Wrap(-x)
  {
    hide Wrap, Cong;
    CongAdd(Wrap(x), x, Wrap(y), y);
    SameWrap(Wrap(x) + Wrap(y), x + y);
    SameWrap(Wrap(x) - Wrap(y), x - y);
    CongSame(0);
    CongAdd(0, 0, Wrap(x), x);
    SameWrap(0 - Wrap(x), 0 - x);
  }

  lemma FoldedProduct(x: int, y: int)
    ensures Wrap(Wrap(x) * Wrap(y)) == Wrap(x * y)
  {
    hide Wrap, Cong;
    CongMul(Wrap(x), x, Wrap(y), y);
    SameWrap(Wrap(x) * Wrap(y), x * y);
  }

  lemma SignKnown(ok: bool, c: Tally, k: Kind, n: int, bare: bool, op: Operand, t: Tally, v: Val, op1: Operand)
    requires Known(ok, c, k, n, bare, op, t, v, op1)
    ensures Known(ok && k == Whole, c, Whole, -n, bare, op, t, Negate(v, op1).0, Negate(v, op1).1)
    ensures var r := if v.IntVal? then (v, op1) else (IntVal(0), Error(op1));
      Known(ok && k == Whole, c, Whole, n, bare, op, t, r.0, r.1)
  {
    hide Wrap, Cong, Tallied;
    FoldedWrap(n, 0);
    if op1.errors == op.errors { assert KindOfVal(v) == k; }
  }

  /** Two trees, one after the other. */
  ghost predicate KnownTwo(ok: bool, c: Tally, ka: Kind, na: int, kb: Kind, nb: int, bare: bool,
                           op: Operand, t: Tally, v: Val, w: Val, op2: Operand) {
    && op2.errors >= op.errors
    && (op2.errors == op.errors <==> ok && Fits(t + c))
    && (op2.errors == op.errors ==>
          Tallied(op2, t + c) && KindOfVal(v) == ka && (v.IntVal? ==> v.v == Wrap(na))
          && KindOfVal(w) == kb && (w.IntVal? ==> w.v == Wrap(nb)) && op2.inBracket == (op.inBracket && bare))
  }

  lemma ThenKnown(oka: bool, ca: Tally, ka: Kind, na: int, ba: bool, okb: bool, cb: Tally, kb: Kind, nb: int, bb: bool,
                  op: Operand, t: Tally, v: Val, op1: Operand, w: Val, op2: Operand)
    requires Known(oka, ca, ka, na, ba, op, t, v, op1) && op2.errors >= op1.errors
    requires op1.errors == op.errors ==> Known(okb, cb, kb, nb, bb, op1, t + ca, w, op2)
    ensures KnownTwo(oka && okb, ca + cb, ka, na, kb, nb, ba && bb, op, t, v, w, op2)
  {
    hide Wrap, Cong, Tallied;
    PlusLaws(t, ca, cb);
    hide Fits;
  }

  /** Once there are errors nothing is accepted any more. */
  lemma Rejected(ok: bool, c: Tally, ka: Kind, na: int, kb: Kind, nb: int, bare: bool, op: Operand, t: Tally,
                 v: Val, w: Val, op2: Operand, ok': bool, more: Tally, k: Kind, n: int, r: Val, op3: Operand)
    requires KnownTwo(ok, c, ka, na, kb, nb, bare, op, t, v, w, op2) && (ok' ==> ok)
    requires op.errors < op2.errors <= op3.errors
    ensures Known(ok', c + more, k, n, bare, op, t, r, op3)
  {
    hide Wrap, Cong, Tallied, Fits;
    PlusLaws(t, c, more);
  }

  lemma ProductKnown(ok: bool, c: Tally, ka: Kind, na: int, kb: Kind, nb: int, bare: bool,
                     op: Operand, t: Tally, v: Val, w: Val, op2: Operand)
    requires KnownTwo(ok, c, ka, na, kb, nb, bare, op, t, v, w, op2)
    ensures var both := ka == Whole && kb == Whole;
      Known(ok && (both || (op.inBracket && bare && Scaled(ka, na, kb, nb))),
            c + (if both then NoTally else multiset{ScaledReg}),
            Folded(ka, kb), na * nb, bare, op, t, Times(v, w, op2).0, Times(v, w, op2).1)
  {
    var both := ka == Whole && kb == Whole;
    ActionsGrow(v, w, op2, true);
    if op2.errors > op.errors {
      hide *;
      Rejected(ok, c, ka, na, kb, nb, bare, op, t, v, w, op2,
               ok && (both || (op.inBracket && bare && Scaled(ka, na, kb, nb))),
               if both then NoTally else multiset{ScaledReg}, Folded(ka, kb), na * nb,
               Times(v, w, op2).0, Times(v, w, op2).1);
    } else if both {
      FoldedProduct(na, nb);
      PlusLaws(c, NoTally, NoTally);
      hide Wrap, Cong, Tallied, Fits;
    } else {
      ScalingKnown(ok, c, ka, na, kb, nb, bare, op, t, v, w, op2);
    }
  }

  lemma ScalingKnown(ok: bool, c: Tally, ka: Kind, na: int, kb: Kind, nb: int, bare: bool,
                     op: Operand, t: Tally, v: Val, w: Val, op2: Operand)
    requires KnownTwo(ok, c, ka, na, kb, nb, bare, op, t, v, w, op2)
    requires op2.errors == op.errors && !(ka == Whole && kb == Whole)
    ensures Known(ok && op.inBracket && bare && Scaled(ka, na, kb, nb), c + multiset{ScaledReg}, Nothing, na * nb,
                  bare, op, t, Times(v, w, op2).0, Times(v, w, op2).1)
  {
    hide Wrap, Cong, ToInt32, Scale, Tallied, Fits;
    var n := na * nb;
    PlusLaws(t, c, multiset{ScaledReg});
    ActionsGrow(v, w, op2, true);
    if v.IntVal? && w.RegVal? {
      ScaleTallied(w.r, v.v, op2, t + c);
      ScaleFlags(w.r, v.v, op2);
    } else if v.RegVal? && w.IntVal? {
      ScaleTallied(v.r, w.v, op2, t + c);
      ScaleFlags(v.r, w.v, op2);
    }
  }

  lemma ScaleFlags(r: Reg, n: int, op: Operand)
    ensures Scale(r, n, op).inBracket == op.inBracket
  {
  }

  lemma PlusLaws(t: Tally, a: Tally, b: Tally)
    ensures t + a + b == t + (a + b) && t + NoTally == t
    ensures Fits(t + a) ==> Fits(t)
    ensures Fits(t + (a + b)) ==> Fits(t + a)
  {
  }

  lemma TalliedFits(op: Operand, t: Tally)
    requires Tallied(op, t)
    ensures Fits(t)
  {
  }

  lemma SlotsTallied(v: Val, w: Val, op: Operand, t: Tally)
    requires Tallied(op, t)
    ensures var u := t + (One(KindOfVal(v), op.inBracket) + One(KindOfVal(w), op.inBracket));
      var op' := Slot(w, Slot(v, op));
      (op'.errors == op.errors <==> Fits(u)) && (Fits(u) ==> Tallied(op', u)) && op'.inBracket == op.inBracket
  {
    hide Slot, Tallied, One, Fits, KindOfVal;
    var a, b := One(KindOfVal(v), op.inBracket), One(KindOfVal(w), op.inBracket);
    PlusLaws(t, a, b);
    SlotTallied(v, op, t);
    SlotFlags(v, op);
    SlotFlags(w, Slot(v, op));
    SlotGrow(v, op);
    SlotGrow(w, Slot(v, op));
    if Fits(t + a) { SlotTallied(w, Slot(v, op), t + a); }
  }

  /** Two numbers, folded to n. */
  lemma FoldKnown(ok: bool, c: Tally, na: int, nb: int, bare: bool,
                  op: Operand, t: Tally, v: Val, w: Val, op2: Operand, n: int)
    requires KnownTwo(ok, c, Whole, na, Whole, nb, bare, op, t, v, w, op2) && op2.errors == op.errors
    ensures v == IntVal(Wrap(na)) && w == IntVal(Wrap(nb))
    ensures Known(ok, c + NoTally, Whole, n, bare, op, t, IntVal(Wrap(n)), op2)
  {
    hide Wrap, Cong, Tallied, Fits;
    PlusLaws(c, NoTally, NoTally);
  }

  /** Two other summands, x having taken the place of w: both slotted. */
  lemma SlotKnown(ok: bool, c: Tally, ka: Kind, na: int, kb: Kind, nb: int, bare: bool,
                  op: Operand, t: Tally, v: Val, w: Val, op2: Operand, x: Val, n: int)
    requires KnownTwo(ok, c, ka, na, kb, nb, bare, op, t, v, w, op2)
    requires op2.errors == op.errors && KindOfVal(x) == KindOfVal(w) && !(ka == Whole == kb)
    ensures Known(ok, c + Two(ka, kb, op.inBracket && bare), Nothing, n, bare, op, t, Handled, Slot(x, Slot(v, op2)))
  {
    hide Wrap, Cong, Slot, Tallied, One, Fits;
    var two := Two(ka, kb, op.inBracket && bare);
    PlusLaws(t, c, two);
    SlotsTallied(v, x, op2, t + c);
    SlotGrow(v, op2);
    SlotGrow(x, Slot(v, op2));
    assert KindOfVal(Handled) == Nothing;
  }

  lemma KindsKnown(ok: bool, c: Tally, ka: Kind, na: int, kb: Kind, nb: int, bare: bool,
                   op: Operand, t: Tally, v: Val, w: Val, op2: Operand)
    requires KnownTwo(ok, c, ka, na, kb, nb, bare, op, t, v, w, op2)
    ensures op2.errors >= op.errors
    ensures op2.errors == op.errors ==>
      (v.IntVal? <==> ka == Whole) && (w.IntVal? <==> kb == Whole) && KindOfVal(w) == kb
  {
    hide Tallied, Fits, Wrap, Cong;
  }

  lemma SumKnown(ok: bool, c: Tally, ka: Kind, na: int, kb: Kind, nb: int, bare: bool,
                 op: Operand, t: Tally, v: Val, w: Val, op2: Operand)
    requires KnownTwo(ok, c, ka, na, kb, nb, bare, op, t, v, w, op2)
    ensures Known(ok, c + Two(ka, kb, op.inBracket && bare), Folded(ka, kb), na + nb, bare, op, t,
                  Plused(v, w, op2).0, Plused(v, w, op2).1)
  {
    hide KnownTwo, Known, Wrap, Cong, Slot, KindOfVal, One;
    PlusedGrow(v, w, op2);
    KindsKnown(ok, c, ka, na, kb, nb, bare, op, t, v, w, op2);
    if op2.errors > op.errors {
      Rejected(ok, c, ka, na, kb, nb, bare, op, t, v, w, op2, ok, Two(ka, kb, op.inBracket && bare),
               Folded(ka, kb), na + nb, Plused(v, w, op2).0, Plused(v, w, op2).1);
    } else if ka == Whole == kb {
      FoldedWrap(na, nb);
      FoldKnown(ok, c, na, nb, bare, op, t, v, w, op2, na + nb);
    } else {
      SlotKnown(ok, c, ka, na, kb, nb, bare, op, t, v, w, op2, w, na + nb);
    }
  }

  lemma PlusedGrow(v: Val, w: Val, op: Operand)
    ensures Plused(v, w, op).1.errors >= op.errors && Minused(v, w, op).1.errors >= op.errors
  {
    hide *;
    ActionsGrow(v, w, op, true);
  }

  lemma DifferenceKnown(ok: bool, c: Tally, ka: Kind, na: int, kb: Kind, nb: int, bare: bool,
                        op: Operand, t: Tally, v: Val, w: Val, op2: Operand)
    requires KnownTwo(ok, c, ka, na, kb, nb, bare, op, t, v, w, op2)
    ensures Known(ok && kb == Whole, c + Two(ka, kb, op.inBracket && bare), Folded(ka, kb), na - nb, bare, op, t,
                  Minused(v, w, op2).0, Minused(v, w, op2).1)
  {
    hide KnownTwo, Known, Wrap, Cong, Slot, One;
    PlusedGrow(v, w, op2);
    KindsKnown(ok, c, ka, na, kb, nb, bare, op, t, v, w, op2);
    if op2.errors > op.errors {
      Rejected(ok, c, ka, na, kb, nb, bare, op, t, v, w, op2, ok && kb == Whole, Two(ka, kb, op.inBracket && bare),
               Folded(ka, kb), na - nb, Minused(v, w, op2).0, Minused(v, w, op2).1);
    } else if ka == Whole == kb {
      FoldedWrap(na, nb);
      FoldKnown(ok, c, na, nb, bare, op, t, v, w, op2, na - nb);
    } else if kb == Whole {
      SlotKnown(ok, c, ka, na, kb, nb, bare, op, t, v, w, op2, IntVal(Wrap(-w.v)), na - nb);
    } else {
      SlotGrow(v, op2);
      SlotGrow(IntVal(0), Error(Slot(v, op2)));
      NotAccepted(c + Two(ka, kb, op.inBracket && bare), Folded(ka, kb), na - nb, bare, op, t,
                  Minused(v, w, op2).0, Minused(v, w, op2).1);
    }
  }

  lemma NotAccepted(c: Tally, k: Kind, n: int, bare: bool, op: Operand, t: Tally, v: Val, op1: Operand)
    requires op1.errors > op.errors
    ensures Known(false, c, k, n, bare, op, t, v, op1)
  {
  }

  lemma OpenTallied(op: Operand, t: Tally)
    requires Tallied(op, t)
    ensures Tallied(Open(op), t)
  {
  }

  lemma CloseTallied(w: Val, closed: bool, op: Operand, t: Tally)
    requires Tallied(op, t)
    ensures var u := t + One(KindOfVal(w), op.inBracket);
      (Close(w, closed, op).errors == op.errors <==> closed && Fits(u))
      && (closed && Fits(u) ==> Tallied(Close(w, closed, op), u))
  {
    hide Slot;
    SlotTallied(w, op, t);
    SlotGrow(w, op);
  }

  lemma BracketKnown(okh: bool, ch: Tally, kh: Kind, nh: int, bh: bool, oki: bool, ci: Tally, ki: Kind, ni: int, bi: bool,
                     closed: bool, op: Operand, t: Tally, v: Val, op1: Operand, w: Val, op2: Operand)
    requires Known(okh, ch, kh, nh, bh, op, t, v, op1) && op2.errors >= op1.errors
    requires op1.errors == op.errors ==> Known(oki, ci, ki, ni, bi, Open(op1), t + ch, w, op2)
    ensures Known(okh && oki && closed, ch + ci + One(ki, bi), kh, nh, false, op, t, v, Close(w, closed, op2))
  {
    hide Wrap, Cong, Tallied, Close, One, Fits;
    var one := One(ki, bi);
    PlusLaws(t, ch, ci);
    PlusLaws(t, ch + ci, one);
    ActionsGrow(w, w, op2, closed);
    if op2.errors == op.errors {
      CloseTallied(w, closed, op2, t + ch + ci);
      ActionsInBracket(w, w, op2, closed);
    } else if op1.errors == op.errors {
      assert !(okh && oki && Fits(t + ch + ci));
    }
  }

  ghost predicate KnownTree(e: Exp, op: Operand, t: Tally, v: Val, op1: Operand) {
    Known(Shaped(e, op.inBracket), Count(e, op.inBracket), KindOf(e), Number(e), Bare(e), op, t, v, op1)
  }

  lemma KnownTallied(e: Exp, op: Operand, t: Tally, v: Val, op1: Operand)
    requires KnownTree(e, op, t, v, op1)
    ensures op1.errors >= op.errors
    ensures op1.errors == op.errors ==>
      Tallied(op1, t + Count(e, op.inBracket)) && op1.inBracket == (op.inBracket && Bare(e))
  {
  }

  /** Two subtrees, one after the other. */
  lemma {:induction false} PairKnown(e: Exp, a: Exp, b: Exp, op: Operand, t: Tally)
    requires Tallied(op, t) && (e == Mul(a, b) || e == Add(a, b) || e == Sub(a, b))
    ensures PairTree(a, b, op, t)
    decreases e, 0
  {
    hide Known, KnownTwo, Tallied, Fits, Exec, Shaped, Count, KindOf, Number, Bare;
    var inside := op.inBracket;
    var (v, op1) := Exec(a, op);
    var (w, op2) := Exec(b, op1);
    PairGrow(a, b, op);
    ExecKnown(a, op, t);
    KnownTallied(a, op, t, v, op1);
    var ca := Count(a, inside);
    if op1.errors == op.errors { ExecKnown(b, op1, t + ca); }
    ThenKnown(Shaped(a, inside), ca, KindOf(a), Number(a), Bare(a),
              Shaped(b, inside && Bare(a)), Count(b, inside && Bare(a)), KindOf(b), Number(b), Bare(b), op, t, v, op1, w, op2);
  }

  lemma {:induction false} BracketTreeKnown(h: Exp, i: Exp, closed: bool, op: Operand, t: Tally)
    requires Tallied(op, t)
    ensures var e := Bracket(h, i, closed); KnownTree(e, op, t, Exec(e, op).0, Exec(e, op).1)
    decreases Bracket(h, i, closed), 0
  {
    hide Known, Tallied, Fits, One;
    var (v, op1) := Exec(h, op);
    var (w, op2) := Exec(i, Open(op1));
    ErrorsGrow(i, Open(op1));
    ExecKnown(h, op, t);
    KnownTallied(h, op, t, v, op1);
    var ch := Count(h, op.inBracket);
    if op1.errors == op.errors {
      OpenTallied(op1, t + ch);
      ExecKnown(i, Open(op1), t + ch);
    }
    BracketKnown(Shaped(h, op.inBracket), ch, KindOf(h), Number(h), Bare(h),
                 Shaped(i, true), Count(i, true), KindOf(i), Number(i), Bare(i), closed, op, t, v, op1, w, op2);
  }

  /** For every tree: whether it is accepted, and what it has done if so. */
  lemma {:induction false} ExecKnown(e: Exp, op: Operand, t: Tally)
    requires Tallied(op, t)
    ensures KnownTree(e, op, t, Exec(e, op).0, Exec(e, op).1)
    decreases e, 1
  {
    hide Known, KnownTwo, Tallied, Fits, Negate, Times, Plused, Minused, One, Wrap, Cong, Close, Slot;
    match e
    case Neg(x) => SignTreeKnown(e, x, op, t);
    case Pos(x) => SignTreeKnown(e, x, op, t);
    case Bracket(h, i, closed) => BracketTreeKnown(h, i, closed, op, t);
    case Mul(a, b) =>
      PairKnown(e, a, b, op, t);
      MulTreeKnown(a, b, op, t);
    case Add(a, b) =>
      PairKnown(e, a, b, op, t);
      AddTreeKnown(a, b, op, t);
    case Sub(a, b) =>
      PairKnown(e, a, b, op, t);
      SubTreeKnown(a, b, op, t);
    case _ => LeafKnown(e, op, t);
  }

  lemma SignTree(x: Exp, op: Operand)
    ensures var e, inside, (v, op1) := Neg(x), op.inBracket, Exec(x, op);
      Exec(e, op) == Negate(v, op1) && KindOf(e) == Whole && Number(e) == -Number(x) && Bare(e) == Bare(x)
      && Shaped(e, inside) == (Shaped(x, inside) && KindOf(x) == Whole) && Count(e, inside) == Count(x, inside)
    ensures var e, inside, (v, op1) := Pos(x), op.inBracket, Exec(x, op);
      Exec(e, op) == (if v.IntVal? then (v, op1) else (IntVal(0), Error(op1)))
      && KindOf(e) == Whole && Number(e) == Number(x) && Bare(e) == Bare(x)
      && Shaped(e, inside) == (Shaped(x, inside) && KindOf(x) == Whole) && Count(e, inside) == Count(x, inside)
  {
    hide Negate;
  }

  lemma {:induction false} SignTreeKnown(e: Exp, x: Exp, op: Operand, t: Tally)
    requires Tallied(op, t) && (e == Neg(x) || e == Pos(x))
    ensures KnownTree(Neg(x), op, t, Exec(Neg(x), op).0, Exec(Neg(x), op).1)
    ensures KnownTree(Pos(x), op, t, Exec(Pos(x), op).0, Exec(Pos(x), op).1)
    decreases e, 0
  {
    hide Known, Tallied, Fits, Negate, Exec, Shaped, Count, KindOf, Number, Bare, Wrap, Cong;
    ExecKnown(x, op, t);
    SignTree(x, op);
    SignKnown(Shaped(x, op.inBracket), Count(x, op.inBracket), KindOf(x), Number(x), Bare(x), op, t,
              Exec(x, op).0, Exec(x, op).1);
  }

  ghost predicate PairTree(a: Exp, b: Exp, op: Operand, t: Tally) {
    var inside := op.inBracket;
    KnownTwo(Shaped(a, inside) && Shaped(b, inside && Bare(a)), Count(a, inside) + Count(b, inside && Bare(a)),
             KindOf(a), Number(a), KindOf(b), Number(b), Bare(a) && Bare(b), op, t,
             Exec(a, op).0, Exec(b, Exec(a, op).1).0, Exec(b, Exec(a, op).1).1)
  }

  lemma MulParts(a: Exp, b: Exp, op: Operand)
    ensures var e, inside, both := Mul(a, b), op.inBracket, KindOf(a) == Whole && KindOf(b) == Whole;
      && Exec(e, op) == Times(Exec(a, op).0, Exec(b, Exec(a, op).1).0, Exec(b, Exec(a, op).1).1)
      && KindOf(e) == Folded(KindOf(a), KindOf(b)) && Number(e) == Number(a) * Number(b) && Bare(e) == (Bare(a) && Bare(b))
      && Shaped(e, inside) == (Shaped(a, inside) && Shaped(b, inside && Bare(a)) && (both
           || (inside && (Bare(a) && Bare(b)) && Scaled(KindOf(a), Number(a), KindOf(b), Number(b)))))
      && Count(e, inside) == Count(a, inside) + Count(b, inside && Bare(a)) + (if both then NoTally else multiset{ScaledReg})
  {
    hide Times, Scaled, Folded;
  }

  lemma AddParts(a: Exp, b: Exp, op: Operand)
    ensures var e, inside := Add(a, b), op.inBracket;
      && Exec(e, op) == Plused(Exec(a, op).0, Exec(b, Exec(a, op).1).0, Exec(b, Exec(a, op).1).1)
      && KindOf(e) == Folded(KindOf(a), KindOf(b)) && Number(e) == Number(a) + Number(b) && Bare(e) == (Bare(a) && Bare(b))
      && Shaped(e, inside) == (Shaped(a, inside) && Shaped(b, inside && Bare(a)))
      && Count(e, inside) == Count(a, inside) + Count(b, inside && Bare(a)) + Two(KindOf(a), KindOf(b), inside && (Bare(a) && Bare(b)))
  {
    hide Plused, Two, Folded;
  }

  lemma SubParts(a: Exp, b: Exp, op: Operand)
    ensures var e, inside := Sub(a, b), op.inBracket;
      && Exec(e, op) == Minused(Exec(a, op).0, Exec(b, Exec(a, op).1).0, Exec(b, Exec(a, op).1).1)
      && KindOf(e) == Folded(KindOf(a), KindOf(b)) && Number(e) == Number(a) - Number(b) && Bare(e) == (Bare(a) && Bare(b))
      && Shaped(e, inside) == (Shaped(a, inside) && Shaped(b, inside && Bare(a)) && KindOf(b) == Whole)
      && Count(e, inside) == Count(a, inside) + Count(b, inside && Bare(a)) + Two(KindOf(a), KindOf(b), inside && (Bare(a) && Bare(b)))
  {
    hide Minused, Two, Folded;
  }

  lemma MulTreeKnown(a: Exp, b: Exp, op: Operand, t: Tally)
    requires PairTree(a, b, op, t)
    ensures KnownTree(Mul(a, b), op, t, Exec(Mul(a, b), op).0, Exec(Mul(a, b), op).1)
  {
    hide Exec, Shaped, Count, KindOf, Number, Bare, Known, KnownTwo, Times, One, Two, Folded, Scaled;
    var inside := op.inBracket;
    MulParts(a, b, op);
    ProductKnown(Shaped(a, inside) && Shaped(b, inside && Bare(a)), Count(a, inside) + Count(b, inside && Bare(a)),
        KindOf(a), Number(a), KindOf(b), Number(b), Bare(a) && Bare(b), op, t,
        Exec(a, op).0, Exec(b, Exec(a, op).1).0, Exec(b, Exec(a, op).1).1);
  }

  lemma AddTreeKnown(a: Exp, b: Exp, op: Operand, t: Tally)
    requires PairTree(a, b, op, t)
    ensures KnownTree(Add(a, b), op, t, Exec(Add(a, b), op).0, Exec(Add(a, b), op).1)
  {
    hide Exec, Shaped, Count, KindOf, Number, Bare, Known, KnownTwo, Plused, One, Two, Folded, Scaled;
    var inside := op.inBracket;
    AddParts(a, b, op);
    SumKnown(Shaped(a, inside) && Shaped(b, inside && Bare(a)), Count(a, inside) + Count(b, inside && Bare(a)),
        KindOf(a), Number(a), KindOf(b), Number(b), Bare(a) && Bare(b), op, t,
        Exec(a, op).0, Exec(b, Exec(a, op).1).0, Exec(b, Exec(a, op).1).1);
  }

  lemma SubTreeKnown(a: Exp, b: Exp, op: Operand, t: Tally)
    requires PairTree(a, b, op, t)
    ensures KnownTree(Sub(a, b), op, t, Exec(Sub(a, b), op).0, Exec(Sub(a, b), op).1)
  {
    hide Exec, Shaped, Count, KindOf, Number, Bare, Known, KnownTwo, Minused, One, Two, Folded, Scaled;
    var inside := op.inBracket;
    SubParts(a, b, op);
    DifferenceKnown(Shaped(a, inside) && Shaped(b, inside && Bare(a)), Count(a, inside) + Count(b, inside && Bare(a)),
        KindOf(a), Number(a), KindOf(b), Number(b), Bare(a) && Bare(b), op, t,
        Exec(a, op).0, Exec(b, Exec(a, op).1).0, Exec(b, Exec(a, op).1).1);
  }

  /** Nothing done yet. */
  lemma Untouched(op: Operand, t: Tally, v: Val, n: int)
    requires Tallied(op, t) && (v.IntVal? ==> v.v == Wrap(n))
    ensures Known(true, NoTally, KindOfVal(v), n, true, op, t, v, op)
  {
    hide Tallied, Fits;
    PlusLaws(t, NoTally, NoTally);
    TalliedFits(op, t);
  }

  lemma LeafKnown(e: Exp, op: Operand, t: Tally)
    requires Tallied(op, t) && (e.Missing? || e.Num? || e.RegExp? || e.VarExp? || e.FieldExp?)
    ensures KnownTree(e, op, t, Exec(e, op).0, Exec(e, op).1)
  {
    hide Known;
    Untouched(op, t, Exec(e, op).0, Number(e));
  }

  // ------------------------------------------------------------------ what is accepted

  lemma NewTallied()
    ensures Tallied(NewOperand, NoTally)
  {
  }

  /** Before it is classified an operand is free of errors if and only if it is shaped and fits. */
  lemma OperandKnown(e: Exp)
    ensures var op := Slot(Exec(e, NewOperand).0, Exec(e, NewOperand).1); var t := Placed(e);
      && (op.errors == 0 <==> Shaped(e, false) && Fits(t))
      && (op.errors == 0 ==> Tallied(op, t) && (op.hasBracket <==> !Bare(e)))
  {
    hide Exec, Slot, Known, Tallied, Fits, One, Shaped, Count;
    var (v, op1) := Exec(e, NewOperand);
    NewTallied();
    ExecKnown(e, NewOperand, NoTally);
    TreeKnownIs(e, v, op1);
    SlotGrow(v, op1);
    SlotFlags(v, op1);
    BracketSeen(e, NewOperand);
    PlusLaws(Count(e, false), One(KindOf(e), false), NoTally);
    if op1.errors == 0 { SlotTallied(v, op1, Count(e, false)); }
  }

  lemma TreeKnownIs(e: Exp, v: Val, op1: Operand)
    requires KnownTree(e, NewOperand, NoTally, v, op1)
    ensures op1.errors == 0 <==> Shaped(e, false) && Fits(Count(e, false))
    ensures op1.errors == 0 ==> Tallied(op1, Count(e, false)) && KindOfVal(v) == KindOf(e) && !op1.inBracket
  {
    hide Tallied, Fits, Shaped, Count;
    assert NoTally + Count(e, false) == Count(e, false);
  }

  /** Shaped, and with no more registers and variables than an operand has room for. */
  predicate Acceptable(e: Exp) { Shaped(e, false) && Fits(Placed(e)) }

  /** A bracket or a variable, and no register outside brackets. */
  predicate IsMemory(e: Exp) {
    Acceptable(e) && (!Bare(e) || Placed(e)[Var] > 0) && Placed(e)[OutReg] == 0
  }

  /** A register, and nothing else. */
  predicate IsRegister(e: Exp) {
    Acceptable(e) && Bare(e) && Placed(e)[OutReg] == 1 && Placed(e)[Var] == 0 && Placed(e)[OutNumber] == 0
  }

  /** A number; a register may stand beside it if the number is zero. */
  ghost predicate IsImmediate(e: Exp) {
    Acceptable(e) && Bare(e) && Placed(e)[Var] == 0 && Placed(e)[OutNumber] > 0
    && (Placed(e)[OutReg] > 0 ==> Cong(Value(e, Zero), 0))
  }

  lemma TwoOutside(ka: Kind, kb: Kind)
    ensures Two(ka, kb, false)[InReg] == 0 && Two(ka, kb, false)[ScaledReg] == 0
  {
  }

  lemma {:induction false} BareOutside(e: Exp)
    requires Bare(e) && Shaped(e, false)
    ensures Count(e, false)[InReg] == 0 && Count(e, false)[ScaledReg] == 0
  {
    hide IsScale, Two, KindOf, One, Number;
    match e
    case Neg(x) => BareOutside(x);
    case Pos(x) => BareOutside(x);
    case Mul(a, b) => BareOutside(a); BareOutside(b);
    case Add(a, b) => BareOutside(a); BareOutside(b); TwoOutside(KindOf(a), KindOf(b));
    case Sub(a, b) => BareOutside(a); BareOutside(b); TwoOutside(KindOf(a), KindOf(b));
    case _ =>
  }

  lemma PlacedOutside(e: Exp)
    requires Bare(e) && Acceptable(e)
    ensures Placed(e)[InReg] == 0 && Placed(e)[ScaledReg] == 0
  {
    hide Bare, Shaped, Fits, Count, KindOf;
    BareOutside(e);
  }

  ghost predicate FieldsAre(e: Exp, op: Operand, t: Tally) {
    && t[OutReg] <= 1
    && (op.reg.Some? <==> t[OutReg] > 0)
    && (op.symbol.Some? <==> t[Var] > 0)
    && (op.hasNumber <==> t[OutNumber] > 0)
    && (op.hasBracket <==> !Bare(e))
    && (t[OutNumber] == 0 && Bare(e) ==> op.constDisplacement == 0)
    && -HalfWord <= op.constDisplacement < HalfWord
  }

  /** The operand before it is classified, field by field. */
  lemma OperandFields(e: Exp)
    ensures var op := Slot(Exec(e, NewOperand).0, Exec(e, NewOperand).1); var t := Placed(e);
      && (op.errors == 0 <==> Acceptable(e))
      && (Acceptable(e) ==> FieldsAre(e, op, t))
      && (Acceptable(e) && Bare(e) ==> t[InReg] == 0 && t[ScaledReg] == 0 && op.baseReg.None? && op.indexReg.None?)
  {
    hide Exec, Slot, Placed, Shaped, Bare;
    OperandKnown(e);
    if Acceptable(e) && Bare(e) { PlacedOutside(e); }
  }

  /** Without brackets and variables the number is the expression's value with registers taken as 0. */
  lemma NumberCollected(e: Exp)
    requires Acceptable(e) && Bare(e) && Placed(e)[Var] == 0
    ensures var op := Slot(Exec(e, NewOperand).0, Exec(e, NewOperand).1);
      op.constDisplacement == 0 <==> Cong(Value(e, Zero), 0)
  {
    hide Exec, Slot, Core, Inner, Value, Placed, Acceptable, Bare, Wrap, Cong;
    OperandFields(e);
    Collected(e, Zero);
    BareExact(e, NewOperand, Zero);
    BareInner(e, Zero);
    var op := Slot(Exec(e, NewOperand).0, Exec(e, NewOperand).1);
    assert Total(op, Zero) == op.constDisplacement;
    CongSmall(op.constDisplacement, Value(e, Zero));
  }

  lemma CongSmall(d: int, v: int)
    requires Cong(d, v) && -HalfWord <= d < HalfWord
    ensures d == 0 <==> Cong(v, 0)
  {
  }

  /** The classes of accepted operands, each by a condition on the tree alone. */
  lemma AcceptedIff(e: Exp)
    ensures var (c, op) := Operate(e);
      && (op.errors == 0 && c == Mem <==> IsMemory(e))
      && (op.errors == 0 && c == RegClass <==> IsRegister(e))
      && (op.errors == 0 && c == Immediate <==> IsImmediate(e))
      && (op.errors == 0 ==> c != Invalid)
  {
    hide Exec, Slot, Value, Placed, Acceptable, Bare, Cong;
    OperandFields(e);
    if Acceptable(e) && Bare(e) && Placed(e)[Var] == 0 { NumberCollected(e); }
  }

  // ------------------------------------------------------------------------ what follows

  function Size(t: Tally): nat { t[OutReg] + t[Var] + t[OutNumber] }

  lemma OneSize(k: Kind)
    ensures Size(One(k, false)) == (if k == Nothing then 0 else 1) && (k == Whole ==> One(k, false)[OutNumber] == 1)
  {
  }

  /** A complete tree without brackets places something, a sum of unlike things two. */
  lemma {:induction false} PlacesSomething(l: Level, e: Exp)
    requires At(l, e) && Bare(e) && Shaped(e, false)
    ensures Size(Placed(e)) >= (if (e.Add? || e.Sub?) && KindOf(e) != Whole then 2 else 1)
    ensures KindOf(e) == Whole ==> Placed(e)[OutNumber] > 0
    decreases e
  {
    hide One, IsScale;
    OneSize(KindOf(e));
    match e
    case Add(a, b) => PlacesSomething(LSum, a); PlacesSomething(LProduct, b);
    case Sub(a, b) => PlacesSomething(LSum, a); PlacesSomething(LProduct, b);
    case _ =>
  }

  /** Of complete expressions exactly the bare registers are register operands. */
  lemma RegisterOperands(e: Exp)
    requires At(LSum, e)
    ensures Operate(e).1.errors == 0 && Operate(e).0 == RegClass <==> e.RegExp?
    ensures e.RegExp? ==> Operate(e) == (RegClass, NewOperand.(reg := Some(e.r)))
  {
    AcceptedIff(e);
    if IsRegister(e) { PlacesSomething(LSum, e); }
  }

  /** Every folded number without brackets is an immediate of its value as a 64-bit word. */
  lemma NumberOperand(e: Exp)
    requires Bare(e) && KindOf(e) == Whole && Shaped(e, false)
    ensures Operate(e) == (Immediate, NewOperand.(hasNumber := true, constDisplacement := Wrap(Number(e))))
  {
    hide Exec, Bare, KindOf, Number, Shaped, Cong, Tallied;
    NewTallied();
    ExecKnown(e, NewOperand, NoTally);
    var (v, op) := Exec(e, NewOperand);
    BareWhole(e);
    assert Fits(NoTally + NoTally);
    assert v == IntVal(Wrap(Number(e)));
    BareInteger(e, NewOperand, Zero);
    WrapOnce(Number(e));
  }

  lemma WrapOnce(n: int)
    ensures Wrap(0 + Wrap(n)) == Wrap(n)
  {
  }

  /** A folded number has placed nothing. */
  lemma {:induction false} BareWhole(e: Exp)
    requires Bare(e) && KindOf(e) == Whole && Shaped(e, false)
    ensures Count(e, false) == NoTally
    decreases e
  {
    hide Scaled, Number;
    match e
    case Neg(x) => BareWhole(x);
    case Pos(x) => BareWhole(x);
    case Mul(a, b) => BareWholePair(e, a, b);
    case Add(a, b) => BareWholePair(e, a, b);
    case Sub(a, b) => BareWholePair(e, a, b);
    case _ =>
  }

  lemma {:induction false} BareWholePair(e: Exp, a: Exp, b: Exp)
    requires a < e && b < e && Bare(a) && Bare(b) && KindOf(a) == Whole == KindOf(b) && Shaped(a, false) && Shaped(b, false)
    ensures Count(a, false) == NoTally && Count(b, false) == NoTally
    decreases e, 0
  {
    hide *;
    BareWhole(a);
    BareWhole(b);
  }

  /** Base, scaled index, displacement: added or subtracted, with any part left out. */
  datatype Usual = Usual(base: Option<Reg>, index: Option<Reg>, scale: nat, minus: bool, disp: Option<nat>)

  function Joined(a: Exp, b: Exp): Exp { if a.Missing? then b else Add(a, b) }

  function Inside(u: Usual): Exp {
    var b := if u.base.Some? then RegExp(u.base.value) else Missing;
    var i := if u.index.Some? then Joined(b, Mul(RegExp(u.index.value), Num(u.scale))) else b;
    if u.disp.None? then i else if u.minus && !i.Missing? then Sub(i, Num(u.disp.value)) else Joined(i, Num(u.disp.value))
  }

  /** A plain expression inside brackets and all that it places there. */
  ghost predicate InsideIs(x: Exp, t: Tally) {
    Bare(x) && Plain(x) && Shaped(x, true) && Count(x, true) + One(KindOf(x), true) == t
  }

  lemma TwoInside(ka: Kind, kb: Kind)
    ensures Two(ka, kb, true) + One(Folded(ka, kb), true) == One(ka, true) + One(kb, true)
  {
  }

  lemma Regrouped(ca: Tally, cb: Tally, two: Tally, one: Tally, oa: Tally, ob: Tally)
    requires two + one == oa + ob
    ensures ca + cb + two + one == ca + oa + (cb + ob)
  {
    assert ca + cb + two + one == ca + cb + (two + one);
    assert ca + cb + (oa + ob) == ca + oa + (cb + ob);
  }

  lemma InsideSum(a: Exp, b: Exp, ta: Tally, tb: Tally)
    requires InsideIs(a, ta) && InsideIs(b, tb)
    ensures InsideIs(Add(a, b), ta + tb) && (KindOf(b) == Whole ==> InsideIs(Sub(a, b), ta + tb))
  {
    hide Number, Scaled, FactorFits, One, Two, Folded;
    var ka, kb := KindOf(a), KindOf(b);
    TwoInside(ka, kb);
    Regrouped(Count(a, true), Count(b, true), Two(ka, kb, true), One(Folded(ka, kb), true), One(ka, true), One(kb, true));
  }

  lemma InsideLeaf(r: Reg, d: nat)
    ensures InsideIs(Missing, NoTally) && InsideIs(RegExp(r), multiset{InReg}) && InsideIs(Num(d), NoTally)
  {
  }

  lemma InsideScaled(r: Reg, s: nat)
    requires s in {1, 2, 4, 8}
    ensures InsideIs(Mul(RegExp(r), Num(s)), multiset{ScaledReg})
  {
    hide FactorFits, IsScale, Number;
    ScaleFits(s);
    var x, y := RegExp(r), Num(s);
    assert Shaped(y, true) && Plain(y) && Count(y, true) == NoTally && KindOf(y) == Whole;
    assert Shaped(x, true) && Plain(x) && Count(x, true) == NoTally && KindOf(x) == ARegister;
    assert Scaled(ARegister, Number(x), Whole, Number(y));
    assert Bare(x) && Bare(y) && Shaped(Mul(x, y), true) && Plain(Mul(x, y));
    assert NoTally + NoTally + multiset{ScaledReg} + NoTally == multiset{ScaledReg};
    assert Count(Mul(x, y), true) == NoTally + NoTally + multiset{ScaledReg} && KindOf(Mul(x, y)) == Nothing;
  }

  lemma ScaleFits(s: nat)
    requires s in {1, 2, 4, 8}
    ensures IsScale(Number(Num(s))) && FactorFits(Num(s))
  {
    assert Wrap(s) == s && ToInt32(s) == s && Value(Num(s), Zero) == s && Number(Num(s)) == s;
  }

  lemma UsualInside(u: Usual) returns (t: Tally)
    requires u.scale in {1, 2, 4, 8}
    ensures InsideIs(Inside(u), t) && t[OutReg] == 0 == t[Var] && t[ScaledReg] <= 1 && t[InReg] <= 1
  {
    hide InsideIs, KindOf;
    var b, m := NoTally, multiset{ScaledReg};
    var i := Missing;
    InsideLeaf(0, 0);
    t := NoTally;
    if u.base.Some? {
      InsideLeaf(u.base.value, 0);
      i, t := RegExp(u.base.value), multiset{InReg};
    }
    if u.index.Some? {
      InsideScaled(u.index.value, u.scale);
      InsideSum(i, Mul(RegExp(u.index.value), Num(u.scale)), t, m);
      i, t := Joined(i, Mul(RegExp(u.index.value), Num(u.scale))), if i.Missing? then m else t + m;
    }
    if u.disp.Some? {
      InsideLeaf(0, u.disp.value);
      NumIsWhole(u.disp.value);
      InsideSum(i, Num(u.disp.value), t, NoTally);
      t := if i.Missing? then NoTally else t + NoTally;
    }
  }

  lemma NumIsWhole(d: nat)
    ensures KindOf(Num(d)) == Whole
  {
  }

  lemma HeadIs(h: Exp)
    requires h.Missing? || h.VarExp?
    ensures Plain(h) && Shaped(h, false) && Count(h, false) == NoTally && KindOf(h) == (if h.Missing? then Nothing else Symbolic)
  {
  }

  lemma HeadTally()
    ensures One(Nothing, false) == NoTally && One(Symbolic, false) == multiset{Var}
  {
  }

  lemma BracketedMemory(h: Exp, x: Exp, t: Tally)
    requires (h.Missing? || h.VarExp?) && InsideIs(x, t)
    requires t[OutReg] == 0 == t[Var] && t[ScaledReg] <= 1 && t[InReg] + t[ScaledReg] <= 2
    ensures IsMemory(Bracket(h, x, true)) && Plain(Bracket(h, x, true))
  {
    hide One, FactorFits, Scaled, Number;
    HeadTally();
    HeadIs(h);
    var e := Bracket(h, x, true);
    assert !Bare(e) && KindOf(e) == KindOf(h) && Shaped(e, false) && Plain(e);
    assert Count(e, false) == NoTally + Count(x, true) + One(KindOf(x), true);
    assert Count(e, false) == t;
  }

  /** All usual forms are accepted as memory, behind a variable too, and name their value. */
  lemma UsualForms(u: Usual, v: Option<Symbol>)
    requires u.scale in {1, 2, 4, 8}
    ensures var e := Bracket(if v.Some? then VarExp(v.value) else Missing, Inside(u), true);
      Operate(e).1.errors == 0 && Operate(e).0 == Mem && forall env :: Cong(Address(Operate(e).1, env), Value(e, env))
  {
    hide *;
    var h := if v.Some? then VarExp(v.value) else Missing;
    var e := Bracket(h, Inside(u), true);
    var t := UsualInside(u);
    BracketedMemory(h, Inside(u), t);
    AcceptedIff(e);
    forall env ensures Cong(Address(Operate(e).1, env), Value(e, env)) { PlainOperandRight(e, env); }
  }

  lemma InnerBracket(y: Exp)
    requires y.RegExp?
    ensures var e := Bracket(Missing, y, true); KindOf(e) == Nothing && !Bare(e) && Count(e, true)[OutReg] == 0
  {
    RegisterParts(y);
  }

  lemma BesideBracket(x: Exp, inner: Exp)
    requires x.RegExp? && KindOf(inner) == Nothing && !Bare(inner)
    ensures var sum := Add(x, inner); KindOf(sum) == Nothing && !Bare(sum) && Count(sum, true)[OutReg] > 0
  {
    hide KindOf, Bare;
    RegisterParts(x);
    AddParts(x, inner, Open(NewOperand));
    assert Two(ARegister, Nothing, false) == multiset{OutReg} + NoTally;
  }

  lemma AroundBracket(sum: Exp)
    requires KindOf(sum) == Nothing && !Bare(sum) && Count(sum, true)[OutReg] > 0
    ensures var e := Bracket(Missing, sum, true); !Bare(e) && Placed(e)[OutReg] > 0
  {
    var e := Bracket(Missing, sum, true);
    assert Count(e, false) == Count(Missing, false) + Count(sum, true) + One(Nothing, false);
  }

  /** A bracket within ends the one around it: the register beside it counts as outside, and is refused. */
  lemma InterruptedBracket(a: Reg, b: Reg)
    ensures Operate(Bracket(Missing, Add(RegExp(a), Bracket(Missing, RegExp(b), true)), true)).1.errors > 0
    ensures Operate(Bracket(Missing, Add(RegExp(a), RegExp(b)), true)).1.errors == 0
  {
    hide Operate, Count, KindOf, Bare, Shaped, Placed, Value, Cong;
    var sum := Add(RegExp(a), Bracket(Missing, RegExp(b), true));
    InnerBracket(RegExp(b));
    BesideBracket(RegExp(a), sum.b);
    AroundBracket(sum);
    AcceptedIff(Bracket(Missing, sum, true));
    TwoRegisters(a, b);
  }

  lemma RegisterParts(x: Exp)
    requires x.RegExp?
    ensures Bare(x) && KindOf(x) == ARegister && forall inside :: Count(x, inside) == NoTally
  {
  }

  lemma TwoRegisters(a: Reg, b: Reg)
    ensures Operate(Bracket(Missing, Add(RegExp(a), RegExp(b)), true)).1.errors == 0
  {
    hide Operate, InsideIs;
    var x, y := RegExp(a), RegExp(b);
    AcceptedIff(Bracket(Missing, Add(x, y), true));
    InsideLeaf(a, 0);
    InsideLeaf(b, 0);
    InsideSum(x, y, multiset{InReg}, multiset{InReg});
    BracketedMemory(Missing, Add(x, y), multiset{InReg} + multiset{InReg});
  }
}

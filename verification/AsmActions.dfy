/**
  What the operand processor (ldc/gen/asm-x86.h, 64-bit build) does to the current operand
  while it parses: base register, scaled index register, displacement, errors.
 */
module AsmActions {
  import opened Options
  import opened AsmSyntax

  // ----------------------------------------------------------------------- 64-bit values

  const Word: int := 0x1_0000_0000_0000_0000
  const HalfWord: int := 0x8000_0000_0000_0000

  /** Two's complement, 64 bits. */
  function Wrap(v: int): (r: int)
    ensures -HalfWord <= r < HalfWord && Cong(r, v)
  {
    (v + HalfWord) % Word - HalfWord
  }

  /** Conversion to a 32-bit int. */
  function ToInt32(v: int): int { (v + 0x8000_0000) % 0x1_0000_0000 - 0x8000_0000 }

  predicate FitsInt32(v: int) { -0x8000_0000 <= v < 0x8000_0000 }

  /** Equal as 64-bit words. */
  predicate Cong(a: int, b: int) { (a - b) % Word == 0 }

  lemma CongAdd(a: int, b: int, c: int, d: int)
    requires Cong(a, b) && Cong(c, d)
    ensures Cong(a + c, b + d) && Cong(a - c, b - d)
  {
  }

  lemma CongSame(a: int)
    ensures Cong(a, a)
  {
  }

  lemma CongSym(a: int, b: int)
    requires Cong(a, b)
    ensures Cong(b, a)
  {
  }

  lemma CongMul(a: int, b: int, c: int, d: int)
    requires Cong(a, b) && Cong(c, d)
    ensures Cong(a * c, b * d)
  {
    var k, l := (a - b) / Word, (c - d) / Word;
    assert a == b + k * Word && c == d + l * Word;
    var q := b * l + k * d + k * l * Word;
    calc {
      a * c - b * d;
      (b + k * Word) * (d + l * Word) - b * d;
      b * (l * Word) + (k * Word) * d + (k * Word) * (l * Word);
      q * Word;
    }
    MultipleOfWord(q);
  }

  lemma MultipleOfWord(q: int)
    ensures q * Word % Word == 0
  {
  }

  lemma CongTrans(a: int, b: int, c: int)
    requires Cong(a, b) && Cong(b, c)
    ensures Cong(a, c)
  {
  }

  // -------------------------------------------------------------------------- the actions

  /** What a parsing function hands back: an expression not yet added to the operand, or Handled. */
  datatype Val = IntVal(v: int) | RegVal(r: Reg) | VarVal(s: Symbol) | FieldVal(offset: nat) | Handled

  datatype Operand = Operand(
    inBracket: bool, hasBracket: bool, hasNumber: bool,
    reg: Option<Reg>, constDisplacement: int, symbol: Option<Symbol>,
    baseReg: Option<Reg>, indexReg: Option<Reg>, scale: int,
    errors: nat)

  const NewOperand := Operand(false, false, false, None, 0, None, None, None, 0, 0)

  function Error(op: Operand): Operand { op.(errors := op.errors + 1) }

  function Displace(op: Operand, v: int): Operand {
    op.(constDisplacement := Wrap(op.constDisplacement + v), hasNumber := op.hasNumber || !op.inBracket)
  }

  function Slot(e: Val, op: Operand): Operand {
    match e
    case IntVal(v) => Displace(op, v)
    case FieldVal(o) => Displace(op, o)
    case RegVal(r) =>
      if !op.inBracket then (if op.reg.None? then op.(reg := Some(r)) else Error(op))
      else if op.baseReg.None? then op.(baseReg := Some(r))
      else if op.indexReg.None? then op.(indexReg := Some(r), scale := 1)
      else Error(op)
    case VarVal(s) => if op.symbol.None? then op.(symbol := Some(s)) else Error(op)
    case Handled => op
  }

  function Scale(r: Reg, v: int, op: Operand): Operand {
    var op := if op.inBracket then op else Error(op);
    if op.scale != 0 || op.indexReg.Some? then Error(op)
    else
      var op := op.(indexReg := Some(r), scale := ToInt32(v));
      if op.scale in {1, 2, 4, 8} then op else Error(op)
  }

  function Times(x: Val, y: Val, op: Operand): (Val, Operand) {
    if x.IntVal? && y.IntVal? then (IntVal(Wrap(x.v * y.v)), op)
    else if x.IntVal? && y.RegVal? then (Handled, Scale(y.r, x.v, op))
    else if x.RegVal? && y.IntVal? then (Handled, Scale(x.r, y.v, op))
    else (x, Error(op))
  }

  function Negate(x: Val, op: Operand): (Val, Operand) {
    if x.IntVal? then (IntVal(Wrap(-x.v)), op) else (IntVal(0), Error(op))
  }

  function Plused(x: Val, y: Val, op: Operand): (Val, Operand) {
    if x.IntVal? && y.IntVal? then (IntVal(Wrap(x.v + y.v)), op)
    else (Handled, Slot(y, Slot(x, op)))
  }

  function Minused(x: Val, y: Val, op: Operand): (Val, Operand) {
    if x.IntVal? && y.IntVal? then (IntVal(Wrap(x.v - y.v)), op)
    else
      var (z, op2) := Negate(y, Slot(x, op));
      (Handled, Slot(z, op2))
  }

  function Open(op: Operand): Operand { op.(inBracket := true, hasBracket := true) }

  function Close(e: Val, closed: bool, op: Operand): Operand {
    var op := Slot(e, op).(inBracket := false);
    if closed then op else Error(op)
  }

  /** The processor's actions while it parses e, in its order. */
  function Exec(e: Exp, op: Operand): (Val, Operand) {
    match e
    case Missing => (Handled, op)
    case Num(v) => (IntVal(Wrap(v)), op)
    case RegExp(r) => (RegVal(r), op)
    case VarExp(s) => (VarVal(s), op)
    case FieldExp(o) => (FieldVal(o), op)
    case Neg(x) => var (v, op1) := Exec(x, op); Negate(v, op1)
    case Pos(x) => var (v, op1) := Exec(x, op); if v.IntVal? then (v, op1) else (IntVal(0), Error(op1))
    case Bracket(h, i, closed) =>
      var (v, op1) := Exec(h, op);
      var (w, op2) := Exec(i, Open(op1));
      (v, Close(w, closed, op2))
    case Mul(a, b) => var (v, op1) := Exec(a, op); var (w, op2) := Exec(b, op1); Times(v, w, op2)
    case Add(a, b) => var (v, op1) := Exec(a, op); var (w, op2) := Exec(b, op1); Plused(v, w, op2)
    case Sub(a, b) => var (v, op1) := Exec(a, op); var (w, op2) := Exec(b, op1); Minused(v, w, op2)
  }

  datatype Class = Mem | RegClass | Immediate | Invalid

  function Classify(op: Operand): (Class, Operand) {
    if op.hasBracket || op.symbol.Some? then
      if op.reg.Some? then (Invalid, Error(op)) else (Mem, op)
    else if op.reg.Some? && op.constDisplacement != 0 then (Invalid, Error(op))
    else if op.reg.Some? && !op.hasNumber then (RegClass, op)
    else if op.hasNumber then (Immediate, op)
    else (Invalid, Error(op))
  }

  /** A whole operand: its tree's actions, the remaining expression, and its class. */
  function Operate(e: Exp): (Class, Operand) {
    var (v, op) := Exec(e, NewOperand);
    Classify(Slot(v, op))
  }
}

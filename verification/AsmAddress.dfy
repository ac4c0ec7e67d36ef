/**
  The meaning of inline-assembly operands: the value of an expression, compared with what the
  processor's actions collect for it.
 */
module AsmAddress {
  import opened Options
  import opened AsmSyntax
  import opened AsmActions

  // ------------------------------------------------------------------------ the meaning

  /** Register and variable addresses are arbitrary. */
  datatype Env = Env(regs: Reg -> int, vars: Symbol -> int)

  function Value(e: Exp, env: Env): int {
    match e
    case Missing => 0
    case Num(v) => v
    case RegExp(r) => env.regs(r)
    case VarExp(s) => env.vars(s)
    case FieldExp(o) => o
    case Neg(x) => -Value(x, env)
    case Pos(x) => Value(x, env)
    case Bracket(h, i, _) => Value(h, env) + Value(i, env)
    case Mul(a, b) => Value(a, env) * Value(b, env)
    case Add(a, b) => Value(a, env) + Value(b, env)
    case Sub(a, b) => Value(a, env) - Value(b, env)
  }

  function ValValue(v: Val, env: Env): int {
    match v
    case IntVal(n) => n
    case RegVal(r) => env.regs(r)
    case VarVal(s) => env.vars(s)
    case FieldVal(o) => o
    case Handled => 0
  }

  function RegPart(r: Option<Reg>, env: Env): int { if r.Some? then env.regs(r.value) else 0 }

  function VarPart(s: Option<Symbol>, env: Env): int { if s.Some? then env.vars(s.value) else 0 }

  function IndexPart(op: Operand, env: Env): int { if op.indexReg.Some? then env.regs(op.indexReg.value) * op.scale else 0 }

  /** The address a memory operand names: symbol + base + index * scale + displacement. */
  function Address(op: Operand, env: Env): int {
    VarPart(op.symbol, env) + RegPart(op.baseReg, env) + IndexPart(op, env) + op.constDisplacement
  }

  /** Everything collected so far, a register outside brackets included. */
  function Total(op: Operand, env: Env): int { Address(op, env) + RegPart(op.reg, env) }

  /** No bracket anywhere. */
  predicate Bare(e: Exp) {
    match e
    case Bracket(_, _, _) => false
    case Neg(x) => Bare(x)
    case Pos(x) => Bare(x)
    case Mul(a, b) => Bare(a) && Bare(b)
    case Add(a, b) => Bare(a) && Bare(b)
    case Sub(a, b) => Bare(a) && Bare(b)
    case _ => true
  }

  /**
    The value with all bracket suffixes left out and the factor of a register cut to 32 bits:
    what the parser folds and hands on.
   */
  function Core(e: Exp, env: Env): int {
    match e
    case Missing => 0
    case Num(v) => v
    case RegExp(r) => env.regs(r)
    case VarExp(s) => env.vars(s)
    case FieldExp(o) => o
    case Neg(x) => -Core(x, env)
    case Pos(x) => Core(x, env)
    case Bracket(h, _, _) => Core(h, env)
    case Mul(a, b) =>
      if a.RegExp? then env.regs(a.r) * ToInt32(Wrap(Core(b, env)))
      else if b.RegExp? then env.regs(b.r) * ToInt32(Wrap(Core(a, env)))
      else Core(a, env) * Core(b, env)
    case Add(a, b) => Core(a, env) + Core(b, env)
    case Sub(a, b) => Core(a, env) - Core(b, env)
  }

  /** The sum of all bracket contents, wherever they stand. */
  function Inner(e: Exp, env: Env): int {
    match e
    case Neg(x) => Inner(x, env)
    case Pos(x) => Inner(x, env)
    case Bracket(h, i, _) => Inner(h, env) + Core(i, env) + Inner(i, env)
    case Mul(a, b) => Inner(a, env) + Inner(b, env)
    case Add(a, b) => Inner(a, env) + Inner(b, env)
    case Sub(a, b) => Inner(a, env) + Inner(b, env)
    case _ => 0
  }

  ghost predicate Fine(op: Operand) { op.indexReg.None? ==> op.scale == 0 }

  lemma SlotGrow(v: Val, op: Operand)
    ensures Slot(v, op).errors >= op.errors
  {
  }

  lemma ActionsGrow(v: Val, w: Val, op: Operand, closed: bool)
    ensures Times(v, w, op).1.errors >= op.errors
    ensures Negate(v, op).1.errors >= op.errors
    ensures Plused(v, w, op).1.errors >= op.errors
    ensures Minused(v, w, op).1.errors >= op.errors
    ensures Close(v, closed, op).errors >= op.errors
  {
    hide Slot, Wrap, ToInt32;
    SlotGrow(v, op);
    SlotGrow(w, op);
    SlotGrow(w, Slot(v, op));
    var (z, op2) := Negate(w, Slot(v, op));
    SlotGrow(z, op2);
  }

  lemma {:induction false} ErrorsGrow(e: Exp, op: Operand)
    ensures Exec(e, op).1.errors >= op.errors
  {
    hide Times, Negate, Plused, Minused, Close;
    match e
    case Neg(x) =>
      var (v, op1) := Exec(x, op);
      ErrorsGrow(x, op);
      ActionsGrow(v, v, op1, true);
    case Pos(x) => ErrorsGrow(x, op);
    case Bracket(h, i, closed) =>
      var (v, op1) := Exec(h, op);
      var (w, op2) := Exec(i, Open(op1));
      ErrorsGrow(h, op);
      ErrorsGrow(i, Open(op1));
      ActionsGrow(w, w, op2, closed);
    case Mul(a, b) =>
      ErrorsGrow(a, op);
      ErrorsGrow(b, Exec(a, op).1);
      ActionsGrow(Exec(a, op).0, Exec(b, Exec(a, op).1).0, Exec(b, Exec(a, op).1).1, true);
    case Add(a, b) =>
      ErrorsGrow(a, op);
      ErrorsGrow(b, Exec(a, op).1);
      ActionsGrow(Exec(a, op).0, Exec(b, Exec(a, op).1).0, Exec(b, Exec(a, op).1).1, true);
    case Sub(a, b) =>
      ErrorsGrow(a, op);
      ErrorsGrow(b, Exec(a, op).1);
      ActionsGrow(Exec(a, op).0, Exec(b, Exec(a, op).1).0, Exec(b, Exec(a, op).1).1, true);
    case _ =>
  }

  lemma PairGrow(a: Exp, b: Exp, op: Operand)
    ensures var (v, op1) := Exec(a, op); var (w, op2) := Exec(b, op1);
      op.errors <= op1.errors <= op2.errors <= Times(v, w, op2).1.errors
      && op2.errors <= Plused(v, w, op2).1.errors && op2.errors <= Minused(v, w, op2).1.errors
  {
    hide *;
    var (v, op1) := Exec(a, op);
    var (w, op2) := Exec(b, op1);
    ErrorsGrow(a, op);
    ErrorsGrow(b, op1);
    ActionsGrow(v, w, op2, true);
  }

  lemma SameWord(a: int, b: int)
    requires Cong(a, b) && -HalfWord <= a < HalfWord
    ensures Wrap(b) == a
  {
  }

  /** Brackets close what they open: whoever is still in a bracket was in one before. */
  lemma {:induction false} StillInBracket(e: Exp, op: Operand)
    ensures Exec(e, op).1.inBracket ==> op.inBracket
  {
    hide Times, Negate, Plused, Minused, Close;
    match e
    case Neg(x) =>
      StillInBracket(x, op);
      ActionsInBracket(Exec(x, op).0, Exec(x, op).0, Exec(x, op).1, true);
    case Pos(x) => StillInBracket(x, op);
    case Bracket(h, i, closed) =>
      var (w, op2) := Exec(i, Open(Exec(h, op).1));
      ActionsInBracket(w, w, op2, closed);
    case Mul(a, b) =>
      StillInBracket(a, op);
      StillInBracket(b, Exec(a, op).1);
      ActionsInBracket(Exec(a, op).0, Exec(b, Exec(a, op).1).0, Exec(b, Exec(a, op).1).1, true);
    case Add(a, b) =>
      StillInBracket(a, op);
      StillInBracket(b, Exec(a, op).1);
      ActionsInBracket(Exec(a, op).0, Exec(b, Exec(a, op).1).0, Exec(b, Exec(a, op).1).1, true);
    case Sub(a, b) =>
      StillInBracket(a, op);
      StillInBracket(b, Exec(a, op).1);
      ActionsInBracket(Exec(a, op).0, Exec(b, Exec(a, op).1).0, Exec(b, Exec(a, op).1).1, true);
    case _ =>
  }

  lemma ActionsInBracket(v: Val, w: Val, op: Operand, closed: bool)
    ensures Times(v, w, op).1.inBracket == op.inBracket
    ensures Negate(v, op).1.inBracket == op.inBracket
    ensures Plused(v, w, op).1.inBracket == op.inBracket
    ensures Minused(v, w, op).1.inBracket == op.inBracket
    ensures !Close(v, closed, op).inBracket
  {
    hide Slot, Wrap, ToInt32;
    SlotFlags(v, op);
    SlotFlags(w, Slot(v, op));
    SlotFlags(Negate(w, Slot(v, op)).0, Negate(w, Slot(v, op)).1);
  }

  lemma SlotFlags(v: Val, op: Operand)
    ensures Slot(v, op).inBracket == op.inBracket && Slot(v, op).hasBracket == op.hasBracket
  {
  }

  /** A register handed back inside a bracket is a bare register. */
  lemma RegisterHandedBack(e: Exp, op: Operand)
    requires Exec(e, op).0.RegVal? && Exec(e, op).1.errors == op.errors && Exec(e, op).1.inBracket
    ensures e == RegExp(Exec(e, op).0.r) && Exec(e, op).1 == op
  {
    hide Slot, Scale, Wrap;
    if e.Mul? {
      PairGrow(e.a, e.b, op);
    } else if e.Bracket? {
      var (w, op2) := Exec(e.inner, Open(Exec(e.head, op).1));
      ActionsInBracket(w, w, op2, e.closed);
    }
  }

  // ---- what one action adds

  /** op1 has collected d more than op. */
  ghost predicate Adds(op: Operand, op1: Operand, env: Env, d: int) {
    Fine(op1) && Cong(Total(op1, env), Total(op, env) + d)
  }

  lemma AddsTrans(op: Operand, op1: Operand, op2: Operand, env: Env, d: int, d1: int, d2: int)
    requires Adds(op, op1, env, d) && Adds(op1, op2, env, d1) && Cong(d + d1, d2)
    ensures Adds(op, op2, env, d2)
  {
    hide Total, Fine;
    CongAdd(Total(op2, env), Total(op1, env) + d1, Total(op1, env), Total(op, env) + d);
  }

  lemma SlotAdds(v: Val, op: Operand, env: Env)
    requires Fine(op) && Slot(v, op).errors == op.errors
    ensures Adds(op, Slot(v, op), env, ValValue(v, env))
  {
  }

  lemma ScaleAdds(r: Reg, v: int, op: Operand, env: Env)
    requires Fine(op) && Scale(r, v, op).errors == op.errors
    ensures Adds(op, Scale(r, v, op), env, env.regs(r) * ToInt32(v))
  {
  }

  lemma PlusedAdds(x: Val, y: Val, op: Operand, env: Env)
    requires Fine(op) && Plused(x, y, op).1.errors == op.errors
    ensures var (v, op1) := Plused(x, y, op);
      Adds(op, op1, env, ValValue(x, env) + ValValue(y, env) - ValValue(v, env))
  {
    hide Total;
    if !(x.IntVal? && y.IntVal?) {
      TwoSlots(x, y, op, env);
    }
  }

  lemma TwoSlots(x: Val, y: Val, op: Operand, env: Env)
    requires Fine(op) && Slot(y, Slot(x, op)).errors == op.errors
    ensures Adds(op, Slot(y, Slot(x, op)), env, ValValue(x, env) + ValValue(y, env))
  {
    hide Slot, Total, ValValue;
    var op1 := Slot(x, op);
    SlotGrow(x, op);
    SlotGrow(y, op1);
    SlotAdds(x, op, env);
    SlotAdds(y, op1, env);
    AddsTrans(op, op1, Slot(y, op1), env, ValValue(x, env), ValValue(y, env), ValValue(x, env) + ValValue(y, env));
  }

  lemma MinusedAdds(x: Val, y: Val, op: Operand, env: Env)
    requires Fine(op) && Minused(x, y, op).1.errors == op.errors
    ensures y.IntVal?
    ensures var (v, op1) := Minused(x, y, op);
      Adds(op, op1, env, ValValue(x, env) - ValValue(y, env) - ValValue(v, env))
  {
    hide Total, Slot;
    SlotGrow(x, op);
    var (z, op2) := Negate(y, Slot(x, op));
    SlotGrow(z, op2);
    if !(x.IntVal? && y.IntVal?) {
      TwoSlots(x, z, op, env);
      AddsTrans(op, Slot(z, op2), Slot(z, op2), env, ValValue(x, env) + ValValue(z, env), 0,
        ValValue(x, env) - ValValue(y, env));
    }
  }

  lemma CloseAdds(w: Val, closed: bool, op: Operand, env: Env)
    requires Fine(op) && Close(w, closed, op).errors == op.errors
    ensures Adds(op, Close(w, closed, op), env, ValValue(w, env))
  {
    hide Slot;
    SlotGrow(w, op);
    SlotAdds(w, op, env);
  }

  lemma OpenAdds(op: Operand, env: Env)
    requires Fine(op)
    ensures Adds(op, Open(op), env, 0)
  {
  }

  // ---- whole trees

  /**
    From op to op1, handing back v: core and inner have been collected, except for what v stands
    for; an integer handed back is a 64-bit word equal to core.
   */
  ghost predicate Collects(op: Operand, op1: Operand, v: Val, env: Env, core: int, inner: int) {
    Adds(op, op1, env, core + inner - ValValue(v, env))
    && (v.IntVal? ==> -HalfWord <= v.v < HalfWord && Cong(v.v, core))
  }

  lemma CollectsFine(op: Operand, op1: Operand, v: Val, env: Env, core: int, inner: int)
    requires Collects(op, op1, v, env, core, inner)
    ensures Fine(op1)
  {
  }

  lemma NegCollects(op: Operand, op1: Operand, v: Val, env: Env, core: int, inner: int)
    requires Collects(op, op1, v, env, core, inner) && v.IntVal?
    ensures Collects(op, op1, IntVal(Wrap(-v.v)), env, -core, inner)
  {
    hide Total;
  }

  /** An integer sum is the sum of what the integers stand for. */
  lemma PlusedInt(v: Val, w: Val, op: Operand, ca: int, cb: int)
    requires v.IntVal? ==> Cong(v.v, ca)
    requires w.IntVal? ==> Cong(w.v, cb)
    ensures var r := Plused(v, w, op).0;
      r.IntVal? ==> -HalfWord <= r.v < HalfWord && Cong(r.v, ca + cb)
  {
    hide Slot;
    if v.IntVal? && w.IntVal? { FoldedSum(v.v, ca, w.v, cb); }
  }

  lemma PlusCollects(op: Operand, op1: Operand, op2: Operand, v: Val, w: Val, env: Env, ca: int, ia: int, cb: int, ib: int)
    requires Collects(op, op1, v, env, ca, ia) && Collects(op1, op2, w, env, cb, ib)
    requires Plused(v, w, op2).1.errors == op2.errors
    ensures Collects(op, Plused(v, w, op2).1, Plused(v, w, op2).0, env, ca + cb, ia + ib)
  {
    hide Adds, Plused, Slot, Cong, Wrap, ValValue;
    CollectsFine(op1, op2, w, env, cb, ib);
    var (r, op3) := Plused(v, w, op2);
    PlusedAdds(v, w, op2, env);
    PlusedInt(v, w, op2, ca, cb);
    var x, y, z := ValValue(v, env), ValValue(w, env), ValValue(r, env);
    var both := ca + ia - x + (cb + ib - y);
    CongSame(both);
    AddsTrans(op, op1, op2, env, ca + ia - x, cb + ib - y, both);
    CongSame(both + (x + y - z));
    AddsTrans(op, op2, op3, env, both, x + y - z, ca + cb + (ia + ib) - z);
  }

  /** An integer difference is the difference of what the integers stand for. */
  lemma MinusedInt(v: Val, w: Val, op: Operand, ca: int, cb: int)
    requires v.IntVal? ==> Cong(v.v, ca)
    requires w.IntVal? ==> Cong(w.v, cb)
    ensures var r := Minused(v, w, op).0;
      r.IntVal? ==> -HalfWord <= r.v < HalfWord && Cong(r.v, ca - cb)
  {
    hide Slot;
    if v.IntVal? && w.IntVal? { FoldedSum(v.v, ca, w.v, cb); }
  }

  lemma CongDrop(w: int, cb: int, x: int, y: int)
    requires Cong(w, cb) && x - y == 2 * (cb - w)
    ensures Cong(x, y)
  {
    CongSym(w, cb);
    CongAdd(cb, w, cb, w);
    assert x - y == cb + cb - (w + w);
  }

  lemma MinusCollects(op: Operand, op1: Operand, op2: Operand, v: Val, w: Val, env: Env, ca: int, ia: int, cb: int, ib: int)
    requires Collects(op, op1, v, env, ca, ia) && Collects(op1, op2, w, env, cb, ib)
    requires Minused(v, w, op2).1.errors == op2.errors
    ensures Collects(op, Minused(v, w, op2).1, Minused(v, w, op2).0, env, ca - cb, ia + ib)
  {
    var (r, op3) := Minused(v, w, op2);
    MinusedAdds(v, w, op2, env);
    MinusedInt(v, w, op2, ca, cb);
    hide Adds, Minused, Slot, Cong, Wrap;
    var x, y := ValValue(v, env), ValValue(w, env);
    var z := ValValue(r, env);
    CongSame(ca + ia - x + (cb + ib - y));
    AddsTrans(op, op1, op2, env, ca + ia - x, cb + ib - y, ca + ia - x + (cb + ib - y));
    CongDrop(y, cb, ca + ia - x + (cb + ib - y) + (x - y - z), ca - cb + (ia + ib) - z);
    AddsTrans(op, op2, op3, env, ca + ia - x + (cb + ib - y), x - y - z, ca - cb + (ia + ib) - z);
  }

  /** Two integers. */
  lemma ProductCollects(op: Operand, op1: Operand, op2: Operand, v: Val, w: Val, env: Env, ca: int, ia: int, cb: int, ib: int)
    requires Collects(op, op1, v, env, ca, ia) && Collects(op1, op2, w, env, cb, ib) && v.IntVal? && w.IntVal?
    ensures Collects(op, op2, IntVal(Wrap(v.v * w.v)), env, ca * cb, ia + ib)
  {
    hide Total, Wrap, Cong;
    var n, c := Wrap(v.v * w.v), ca * cb;
    CongMul(v.v, ca, w.v, cb);
    CongTrans(n, v.v * w.v, c);
    CongRest(v.v, ca, w.v, cb, n, c, ia, ib);
    AddsTrans(op, op1, op2, env, ca + ia - v.v, cb + ib - w.v, c + (ia + ib) - n);
  }

  lemma CongRest(v: int, ca: int, w: int, cb: int, n: int, c: int, ia: int, ib: int)
    requires Cong(v, ca) && Cong(w, cb) && Cong(n, c)
    ensures Cong(ca + ia - v + (cb + ib - w), c + (ia + ib) - n)
  {
  }

  /** An integer and a register in a bracket; n is the integer, c what it stands for. */
  lemma ScaleCollects(op: Operand, op1: Operand, r: Reg, n: int, env: Env, c: int, i: int)
    requires Collects(op, op1, IntVal(n), env, c, i) && Scale(r, n, op1).errors == op1.errors
    ensures Collects(op, Scale(r, n, op1), Handled, env, env.regs(r) * ToInt32(Wrap(c)), i)
  {
    hide Total, Scale;
    SameWord(n, c);
    ScaleAdds(r, n, op1, env);
    hide Wrap, ToInt32;
    AddsTrans(op, op1, Scale(r, n, op1), env, c + i - n, env.regs(r) * ToInt32(n), env.regs(r) * ToInt32(n) + i);
  }

  /**
    The parser's bookkeeping, for every tree that it accepts: what was collected plus what is
    handed back is what was collected before plus the tree's core plus all its brackets.
   */
  lemma {:induction false} ExecCollects(e: Exp, op: Operand, env: Env)
    requires Fine(op) && Exec(e, op).1.errors == op.errors
    ensures Collects(op, Exec(e, op).1, Exec(e, op).0, env, Core(e, env), Inner(e, env))
    decreases e, 1
  {
    match e
    case Neg(x) =>
      hide Collects, Wrap, Core, Inner;
      ErrorsGrow(x, op);
      ExecCollects(x, op, env);
      NegCollects(op, Exec(x, op).1, Exec(x, op).0, env, Core(x, env), Inner(x, env));
      SignParts(x, env);
    case Pos(x) =>
      ErrorsGrow(x, op);
      ExecCollects(x, op, env);
    case Bracket(h, i, closed) => BracketCollects(h, i, closed, op, env);
    case Mul(a, b) => MulCollects(a, b, op, env);
    case Add(a, b) => SumCollects(a, b, op, env);
    case Sub(a, b) => DifferenceCollects(a, b, op, env);
    case _ =>
  }

  lemma SignParts(x: Exp, env: Env)
    ensures Core(Neg(x), env) == -Core(x, env) && Inner(Neg(x), env) == Inner(x, env)
  {
  }

  lemma {:induction false} BracketCollects(h: Exp, i: Exp, closed: bool, op: Operand, env: Env)
    requires Fine(op) && Exec(Bracket(h, i, closed), op).1.errors == op.errors
    ensures var e := Bracket(h, i, closed);
      Collects(op, Exec(e, op).1, Exec(e, op).0, env, Core(e, env), Inner(e, env))
    decreases Bracket(h, i, closed), 0
  {
    hide Close, Total, ValValue;
    var (v, op1) := Exec(h, op);
    var (w, op2) := Exec(i, Open(op1));
    var op3 := Close(w, closed, op2);
    ErrorsGrow(h, op);
    ErrorsGrow(i, Open(op1));
    ActionsGrow(w, w, op2, closed);
    ExecCollects(h, op, env);
    OpenAdds(op1, env);
    ExecCollects(i, Open(op1), env);
    CloseAdds(w, closed, op2, env);
    var dh := Core(h, env) + Inner(h, env) - ValValue(v, env);
    var di, dw := Core(i, env) + Inner(i, env) - ValValue(w, env), ValValue(w, env);
    AddsTrans(op, op1, Open(op1), env, dh, 0, dh);
    AddsTrans(op, Open(op1), op2, env, dh, di, dh + di);
    AddsTrans(op, op2, op3, env, dh + di, dw, dh + di + dw);
  }

  lemma {:induction false} SumCollects(a: Exp, b: Exp, op: Operand, env: Env)
    requires Fine(op) && Exec(Add(a, b), op).1.errors == op.errors
    ensures var e := Add(a, b); Collects(op, Exec(e, op).1, Exec(e, op).0, env, Core(e, env), Inner(e, env))
    decreases Add(a, b), 0
  {
    hide Collects, Plused;
    PairGrow(a, b, op);
    var (v, op1) := Exec(a, op);
    var (w, op2) := Exec(b, op1);
    ExecCollects(a, op, env);
    CollectsFine(op, op1, v, env, Core(a, env), Inner(a, env));
    ExecCollects(b, op1, env);
    PlusCollects(op, op1, op2, v, w, env, Core(a, env), Inner(a, env), Core(b, env), Inner(b, env));
  }

  lemma {:induction false} DifferenceCollects(a: Exp, b: Exp, op: Operand, env: Env)
    requires Fine(op) && Exec(Sub(a, b), op).1.errors == op.errors
    ensures var e := Sub(a, b); Collects(op, Exec(e, op).1, Exec(e, op).0, env, Core(e, env), Inner(e, env))
    decreases Sub(a, b), 0
  {
    hide Collects, Minused;
    PairGrow(a, b, op);
    var (v, op1) := Exec(a, op);
    var (w, op2) := Exec(b, op1);
    ExecCollects(a, op, env);
    CollectsFine(op, op1, v, env, Core(a, env), Inner(a, env));
    ExecCollects(b, op1, env);
    MinusCollects(op, op1, op2, v, w, env, Core(a, env), Inner(a, env), Core(b, env), Inner(b, env));
  }

  lemma {:induction false} MulCollects(a: Exp, b: Exp, op: Operand, env: Env)
    requires Fine(op) && Exec(Mul(a, b), op).1.errors == op.errors
    ensures var e := Mul(a, b); Collects(op, Exec(e, op).1, Exec(e, op).0, env, Core(e, env), Inner(e, env))
    decreases Mul(a, b), 0
  {
    hide Collects, Wrap, ToInt32, Scale;
    PairGrow(a, b, op);
    var (v, op1) := Exec(a, op);
    var (w, op2) := Exec(b, op1);
    ExecCollects(a, op, env);
    CollectsFine(op, op1, v, env, Core(a, env), Inner(a, env));
    ExecCollects(b, op1, env);
    if v.IntVal? && w.IntVal? {
      ProductCollects(op, op1, op2, v, w, env, Core(a, env), Inner(a, env), Core(b, env), Inner(b, env));
    } else if v.IntVal? {
      ScaleNeedsBracket(w.r, v.v, op2);
      RegisterHandedBack(b, op1);
      ScaleCollects(op, op1, w.r, v.v, env, Core(a, env), Inner(a, env));
    } else {
      ScaleNeedsBracket(v.r, w.v, op2);
      StillInBracket(b, op1);
      RegisterHandedBack(a, op);
      ScaleCollects(op, op2, v.r, w.v, env, Core(b, env), Inner(b, env));
    }
  }

  lemma ScaleNeedsBracket(r: Reg, n: int, op: Operand)
    requires Scale(r, n, op).errors == op.errors
    ensures op.inBracket
  {
  }

  // ---- operands without brackets

  lemma ActionsBracket(v: Val, w: Val, op: Operand, closed: bool)
    ensures Times(v, w, op).1.hasBracket == op.hasBracket
    ensures Negate(v, op).1.hasBracket == op.hasBracket
    ensures Plused(v, w, op).1.hasBracket == op.hasBracket
    ensures Minused(v, w, op).1.hasBracket == op.hasBracket
    ensures Close(v, closed, op).hasBracket == op.hasBracket
  {
    hide Slot, Wrap, ToInt32;
    SlotFlags(v, op);
    SlotFlags(w, Slot(v, op));
    SlotFlags(Negate(w, Slot(v, op)).0, Negate(w, Slot(v, op)).1);
  }

  lemma {:induction false} BracketSeen(e: Exp, op: Operand)
    ensures Exec(e, op).1.hasBracket <==> op.hasBracket || !Bare(e)
  {
    hide Times, Negate, Plused, Minused, Close;
    match e
    case Neg(x) =>
      BracketSeen(x, op);
      ActionsBracket(Exec(x, op).0, Exec(x, op).0, Exec(x, op).1, true);
    case Pos(x) => BracketSeen(x, op);
    case Bracket(h, i, closed) =>
      BracketSeen(h, op);
      var (w, op2) := Exec(i, Open(Exec(h, op).1));
      BracketSeen(i, Open(Exec(h, op).1));
      ActionsBracket(w, w, op2, closed);
    case Mul(a, b) =>
      BracketSeen(a, op);
      BracketSeen(b, Exec(a, op).1);
      ActionsBracket(Exec(a, op).0, Exec(b, Exec(a, op).1).0, Exec(b, Exec(a, op).1).1, true);
    case Add(a, b) =>
      BracketSeen(a, op);
      BracketSeen(b, Exec(a, op).1);
      ActionsBracket(Exec(a, op).0, Exec(b, Exec(a, op).1).0, Exec(b, Exec(a, op).1).1, true);
    case Sub(a, b) =>
      BracketSeen(a, op);
      BracketSeen(b, Exec(a, op).1);
      ActionsBracket(Exec(a, op).0, Exec(b, Exec(a, op).1).0, Exec(b, Exec(a, op).1).1, true);
    case _ =>
  }

  predicate HasReg(e: Exp) {
    match e
    case RegExp(_) => true
    case Neg(x) => HasReg(x)
    case Pos(x) => HasReg(x)
    case Bracket(h, i, _) => HasReg(h) || HasReg(i)
    case Mul(a, b) => HasReg(a) || HasReg(b)
    case Add(a, b) => HasReg(a) || HasReg(b)
    case Sub(a, b) => HasReg(a) || HasReg(b)
    case _ => false
  }

  /** Outside brackets only the register field can be set, and it is set for a register. */
  ghost predicate RegOnly(op: Operand, op1: Operand, v: Val, has: bool) {
    !op1.inBracket && op1.baseReg == op.baseReg && op1.indexReg == op.indexReg
    && (op1.reg.Some? || v.RegVal? <==> op.reg.Some? || has)
    && (v.IntVal? ==> !has && op1 == op)
  }

  lemma {:induction false} BareRuns(e: Exp, op: Operand)
    requires Bare(e) && !op.inBracket && Exec(e, op).1.errors == op.errors
    ensures RegOnly(op, Exec(e, op).1, Exec(e, op).0, HasReg(e))
  {
    hide Wrap, RegOnly, Times, Plused, Minused;
    match e
    case Neg(x) =>
      ErrorsGrow(x, op);
      BareRuns(x, op);
      SignRegOnly(Exec(x, op).0, op, Exec(x, op).1, HasReg(x));
    case Pos(x) =>
      ErrorsGrow(x, op);
      BareRuns(x, op);
      SignRegOnly(Exec(x, op).0, op, Exec(x, op).1, HasReg(x));
    case Mul(a, b) =>
      PairGrow(a, b, op);
      BareRuns(a, op);
      NotInBracket(op, Exec(a, op).1, Exec(a, op).0, HasReg(a));
      BareRuns(b, Exec(a, op).1);
      PairRegOnly(op, Exec(a, op), Exec(b, Exec(a, op).1), HasReg(a), HasReg(b));
    case Add(a, b) =>
      PairGrow(a, b, op);
      BareRuns(a, op);
      NotInBracket(op, Exec(a, op).1, Exec(a, op).0, HasReg(a));
      BareRuns(b, Exec(a, op).1);
      PairRegOnly(op, Exec(a, op), Exec(b, Exec(a, op).1), HasReg(a), HasReg(b));
    case Sub(a, b) =>
      PairGrow(a, b, op);
      BareRuns(a, op);
      NotInBracket(op, Exec(a, op).1, Exec(a, op).0, HasReg(a));
      BareRuns(b, Exec(a, op).1);
      PairRegOnly(op, Exec(a, op), Exec(b, Exec(a, op).1), HasReg(a), HasReg(b));
    case _ => LeafRegOnly(e, op);
  }

  lemma LeafRegOnly(e: Exp, op: Operand)
    requires e.Missing? || e.Num? || e.RegExp? || e.VarExp? || e.FieldExp?
    requires !op.inBracket
    ensures RegOnly(op, Exec(e, op).1, Exec(e, op).0, HasReg(e))
  {
  }

  lemma NotInBracket(op: Operand, op1: Operand, v: Val, has: bool)
    requires RegOnly(op, op1, v, has)
    ensures !op1.inBracket
  {
  }

  lemma SignRegOnly(v: Val, op: Operand, op1: Operand, has: bool)
    requires RegOnly(op, op1, v, has)
    ensures v.IntVal? ==> forall n :: RegOnly(op, op1, IntVal(n), has)
  {
  }

  lemma PairRegOnly(op: Operand, x: (Val, Operand), y: (Val, Operand), hx: bool, hy: bool)
    requires RegOnly(op, x.1, x.0, hx) && RegOnly(x.1, y.1, y.0, hy)
    ensures var r := Times(x.0, y.0, y.1); r.1.errors == y.1.errors ==> RegOnly(op, r.1, r.0, hx || hy)
    ensures var r := Plused(x.0, y.0, y.1); r.1.errors == y.1.errors ==> RegOnly(op, r.1, r.0, hx || hy)
    ensures var r := Minused(x.0, y.0, y.1); r.1.errors == y.1.errors ==> RegOnly(op, r.1, r.0, hx || hy)
  {
    hide Slot, Wrap, ToInt32;
    var op1 := Slot(x.0, y.1);
    SlotRegOnly(x.0, y.1);
    SlotRegOnly(y.0, op1);
    var (z, op2) := Negate(y.0, op1);
    SlotRegOnly(z, op2);
  }

  lemma SlotRegOnly(v: Val, op: Operand)
    requires !op.inBracket
    ensures var op1 := Slot(v, op);
      op1.errors >= op.errors && !op1.inBracket && op1.baseReg == op.baseReg && op1.indexReg == op.indexReg
      && (op1.errors == op.errors ==> (op1.reg.Some? <==> op.reg.Some? || v.RegVal?))
  {
  }

  /** The operand of a bracketless expression has no base and no index; its register says whether it read one. */
  lemma BareOperand(e: Exp)
    requires Operate(e).1.errors == 0 && !Operate(e).1.hasBracket
    ensures var op := Operate(e).1; op.baseReg.None? && op.indexReg.None? && (op.reg.Some? <==> HasReg(e))
  {
    hide Exec, HasReg, Bare;
    var (v, op) := Exec(e, NewOperand);
    ErrorsGrow(e, NewOperand);
    SlotGrow(v, op);
    BracketSeen(e, NewOperand);
    BareRuns(e, NewOperand);
  }

  // ------------------------------------------------------------------------ main results

  /** Outside brackets no factor is a register, so that nothing is cut. */
  lemma {:induction false} BareExact(e: Exp, op: Operand, env: Env)
    requires Bare(e) && !op.inBracket && Exec(e, op).1.errors == op.errors
    ensures Core(e, env) == Value(e, env)
  {
    hide Plused, Minused, Wrap, ToInt32, RegOnly;
    match e
    case Neg(x) =>
      ErrorsGrow(x, op);
      BareExact(x, op, env);
    case Pos(x) =>
      ErrorsGrow(x, op);
      BareExact(x, op, env);
    case Mul(a, b) =>
      BareNext(a, b, op);
      BareExact(a, op, env);
      BareExact(b, Exec(a, op).1, env);
    case Add(a, b) =>
      BareNext(a, b, op);
      BareExact(a, op, env);
      BareExact(b, Exec(a, op).1, env);
    case Sub(a, b) =>
      BareNext(a, b, op);
      BareExact(a, op, env);
      BareExact(b, Exec(a, op).1, env);
    case _ =>
  }

  lemma BareNext(a: Exp, b: Exp, op: Operand)
    requires Bare(a) && Bare(b) && !op.inBracket
    ensures var (v, op1) := Exec(a, op); var (w, op2) := Exec(b, op1);
      op.errors <= op1.errors <= op2.errors <= Times(v, w, op2).1.errors
      && op2.errors <= Plused(v, w, op2).1.errors && op2.errors <= Minused(v, w, op2).1.errors
      && (op1.errors == op.errors ==> !op1.inBracket) && (op2.errors == op.errors ==> !op2.inBracket)
  {
    hide *;
    PairGrow(a, b, op);
    var (v, op1) := Exec(a, op);
    var (w, op2) := Exec(b, op1);
    if op1.errors == op.errors {
      BareRuns(a, op);
      NotInBracket(op, op1, v, HasReg(a));
    }
    if op2.errors == op.errors {
      BareRuns(b, op1);
      NotInBracket(op1, op2, w, HasReg(b));
    }
  }

  lemma {:induction false} BareInner(e: Exp, env: Env)
    requires Bare(e)
    ensures Inner(e, env) == 0
  {
    match e
    case Neg(x) => BareInner(x, env);
    case Pos(x) => BareInner(x, env);
    case Mul(a, b) => BareInner(a, env); BareInner(b, env);
    case Add(a, b) => BareInner(a, env); BareInner(b, env);
    case Sub(a, b) => BareInner(a, env); BareInner(b, env);
    case _ =>
  }

  /** All that has been collected when an operand is classified. */
  lemma Collected(e: Exp, env: Env)
    requires Slot(Exec(e, NewOperand).0, Exec(e, NewOperand).1).errors == 0
    ensures var (v, op) := Exec(e, NewOperand);
      Cong(Total(Slot(v, op), env), Core(e, env) + Inner(e, env)) && op.errors == 0 && (Slot(v, op).hasBracket <==> !Bare(e))
  {
    hide Exec, Slot, Core, Inner;
    var (v, op) := Exec(e, NewOperand);
    ErrorsGrow(e, NewOperand);
    SlotGrow(v, op);
    ExecCollects(e, NewOperand, env);
    SlotAdds(v, op, env);
    var d := Core(e, env) + Inner(e, env);
    AddsTrans(NewOperand, op, Slot(v, op), env, d - ValValue(v, env), ValValue(v, env), d);
    BracketSeen(e, NewOperand);
    SlotFlags(v, op);
  }

  lemma Accepted(e: Exp, env: Env)
    requires Operate(e).1.errors == 0
    ensures Cong(Total(Operate(e).1, env), Core(e, env) + Inner(e, env))
    ensures Exec(e, NewOperand).1.errors == 0 && (Operate(e).1.hasBracket <==> !Bare(e))
  {
    hide Exec, Slot, Core, Inner, Total;
    Collected(e, env);
  }

  /**
    What every operand accepted without error names, for all contents of registers.  A memory
    operand names the core plus all brackets, and so its expression's value exactly if these
    agree; a register operand is its expression; an immediate's number is its expression's
    value less the register, if the expression has one.
   */
  lemma OperandMeans(e: Exp, env: Env)
    requires Operate(e).1.errors == 0
    ensures var (c, op) := Operate(e);
      match c
      case Mem =>
        Cong(Address(op, env), Core(e, env) + Inner(e, env))
        && (Cong(Address(op, env), Value(e, env)) <==> Cong(Core(e, env) + Inner(e, env), Value(e, env)))
      case RegClass => op.reg.Some? && Cong(env.regs(op.reg.value), Value(e, env))
      case Immediate => Cong(op.constDisplacement + RegPart(op.reg, env), Value(e, env))
      case Invalid => false
  {
    hide Exec, Slot, Value, Core, Inner;
    Accepted(e, env);
    if Operate(e).0 != Mem {
      BareOperand(e);
      BareExact(e, NewOperand, env);
      BareInner(e, env);
    }
  }

  /** An immediate is right exactly for the expressions without a register: `eax + 0` is taken as the number 0. */
  lemma ImmediateRightIffNoRegister(e: Exp)
    requires Operate(e).1.errors == 0 && Operate(e).0 == Immediate
    ensures (forall env :: Cong(Operate(e).1.constDisplacement, Value(e, env))) <==> !HasReg(e)
  {
    hide Exec, Slot, Value, Total, Core, Inner;
    var op := Operate(e).1;
    BareOperand(e);
    if HasReg(e) {
      var one := Env(r => 1, s => 0);
      OperandMeans(e, one);
      assert RegPart(op.reg, one) == 1;
    } else {
      forall env ensures Cong(op.constDisplacement, Value(e, env)) {
        OperandMeans(e, env);
      }
    }
  }

  lemma RegisterPlusZero(r: Reg)
    ensures Operate(Add(RegExp(r), Num(0))) ==
      (Immediate, NewOperand.(reg := Some(r), hasNumber := true))
  {
    assert Exec(RegExp(r), NewOperand) == (RegVal(r), NewOperand) && Exec(Num(0), NewOperand) == (IntVal(0), NewOperand);
  }

  // ------------------------------------------------------- where the two values agree

  const Zero := Env(r => 0, s => 0)

  /** As a factor of a register the constant is cut to 32 bits before it is looked at. */
  predicate FactorFits(e: Exp) { FitsInt32(Wrap(Value(e, Zero))) }

  /**
    Operands whose brackets stand neither in a factor nor in a subtrahend, and whose register
    factors fit the scale field.
   */
  predicate Plain(e: Exp) {
    match e
    case Neg(x) => Bare(x) && Plain(x)
    case Pos(x) => Bare(x) && Plain(x)
    case Bracket(h, i, _) => Plain(h) && Plain(i)
    case Mul(a, b) =>
      Bare(a) && Bare(b) && Plain(a) && Plain(b)
      && (a.RegExp? ==> FactorFits(b)) && (b.RegExp? ==> FactorFits(a))
    case Add(a, b) => Plain(a) && Plain(b)
    case Sub(a, b) => Plain(a) && Bare(b) && Plain(b)
    case _ => true
  }

  lemma TimesInt(x: Val, y: Val, op: Operand)
    requires Times(x, y, op).1.errors == op.errors && Times(x, y, op).0.IntVal?
    ensures x.IntVal? && y.IntVal?
  {
  }

  lemma MinusedNeedsInt(x: Val, y: Val, op: Operand)
    requires Minused(x, y, op).1.errors == op.errors
    ensures y.IntVal?
  {
    hide Slot;
    SlotGrow(x, op);
    SlotGrow(Negate(y, Slot(x, op)).0, Negate(y, Slot(x, op)).1);
  }

  lemma CongNeg(a: int, b: int)
    requires Cong(a, b)
    ensures Cong(Wrap(-a), -b)
  {
  }

  /**
    A bracketless subtree folded to an integer has touched nothing, and the integer is its value
    as a 64-bit word.
   */
  lemma {:induction false} BareInteger(e: Exp, op: Operand, env: Env)
    requires Bare(e) && Exec(e, op).1.errors == op.errors && Exec(e, op).0.IntVal?
    ensures Exec(e, op).1 == op && Cong(Exec(e, op).0.v, Value(e, env)) && Core(e, env) == Value(e, env)
    decreases e, 1
  {
    hide Wrap, ToInt32, Slot, Times, Cong;
    match e
    case Neg(x) =>
      ErrorsGrow(x, op);
      BareInteger(x, op, env);
      CongNeg(Exec(x, op).0.v, Value(x, env));
    case Pos(x) =>
      ErrorsGrow(x, op);
      BareInteger(x, op, env);
    case Mul(a, b) => BareProduct(a, b, op, env);
    case Add(a, b) =>
      PairGrow(a, b, op);
      BareInteger(a, op, env);
      BareInteger(b, op, env);
      FoldedSum(Exec(a, op).0.v, Value(a, env), Exec(b, op).0.v, Value(b, env));
    case Sub(a, b) =>
      PairGrow(a, b, op);
      BareInteger(a, op, env);
      BareInteger(b, op, env);
      FoldedSum(Exec(a, op).0.v, Value(a, env), Exec(b, op).0.v, Value(b, env));
    case _ =>
  }

  lemma {:induction false} BareProduct(a: Exp, b: Exp, op: Operand, env: Env)
    requires Bare(a) && Bare(b)
    requires Exec(Mul(a, b), op).1.errors == op.errors && Exec(Mul(a, b), op).0.IntVal?
    ensures var e := Mul(a, b);
      Exec(e, op).1 == op && Cong(Exec(e, op).0.v, Value(e, env)) && Core(e, env) == Value(e, env)
    decreases Mul(a, b), 0
  {
    hide Wrap, ToInt32, Slot, Cong, Scale;
    PairGrow(a, b, op);
    var (v, op1) := Exec(a, op);
    var (w, op2) := Exec(b, op1);
    TimesInt(v, w, op2);
    BareInteger(a, op, env);
    BareInteger(b, op1, env);
    CongMul(v.v, Value(a, env), w.v, Value(b, env));
    CongTrans(Wrap(v.v * w.v), v.v * w.v, Value(a, env) * Value(b, env));
  }

  lemma FoldedSum(v: int, a: int, w: int, b: int)
    requires Cong(v, a) && Cong(w, b)
    ensures Cong(Wrap(v + w), a + b) && Cong(Wrap(v - w), a - b)
  {
    hide Cong, Wrap;
    CongAdd(v, a, w, b);
    CongTrans(Wrap(v + w), v + w, a + b);
    CongTrans(Wrap(v - w), v - w, a - b);
  }

  /** A factor that fits is not changed by the cut. */
  lemma FittingFactor(e: Exp, op: Operand, env: Env)
    requires Bare(e) && Fine(op) && Exec(e, op).1.errors == op.errors && Exec(e, op).0.IntVal? && FactorFits(e)
    ensures Cong(ToInt32(Wrap(Core(e, env))), Value(e, env))
  {
    hide Exec, Core, Value, Inner, Adds;
    var n := Exec(e, op).0.v;
    ExecCollects(e, op, env);
    ExecCollects(e, op, Zero);
    BareInteger(e, op, env);
    BareInteger(e, op, Zero);
    SameWord(n, Core(e, env));
    SameWord(n, Core(e, Zero));
    Uncut(n);
  }

  lemma Uncut(n: int)
    ensures FitsInt32(n) ==> ToInt32(n) == n
  {
  }

  /** In plain operands that are accepted the two values agree. */
  lemma {:induction false} PlainAgrees(e: Exp, op: Operand, env: Env)
    requires Plain(e) && Fine(op) && Exec(e, op).1.errors == op.errors
    ensures Cong(Core(e, env) + Inner(e, env), Value(e, env))
  {
    hide Wrap, ToInt32, Cong, Plused, Minused, Close, Scale, FactorFits;
    match e
    case Neg(x) =>
      ErrorsGrow(x, op);
      BareInteger(x, op, env);
      BareInner(x, env);
      CongSame(Value(e, env));
    case Pos(x) =>
      ErrorsGrow(x, op);
      BareInteger(x, op, env);
      BareInner(x, env);
      CongSame(Value(e, env));
    case Bracket(h, i, closed) =>
      var (v, op1) := Exec(h, op);
      var (w, op2) := Exec(i, Open(op1));
      ErrorsGrow(h, op);
      ErrorsGrow(i, Open(op1));
      ActionsGrow(w, w, op2, closed);
      PlainAgrees(h, op, env);
      FineKept(h, op);
      PlainAgrees(i, Open(op1), env);
      CongAdd(Core(h, env) + Inner(h, env), Value(h, env), Core(i, env) + Inner(i, env), Value(i, env));
    case Mul(a, b) => PlainProduct(a, b, op, env);
    case Add(a, b) =>
      PairGrow(a, b, op);
      PlainAgrees(a, op, env);
      FineKept(a, op);
      PlainAgrees(b, Exec(a, op).1, env);
      CongAdd(Core(a, env) + Inner(a, env), Value(a, env), Core(b, env) + Inner(b, env), Value(b, env));
    case Sub(a, b) =>
      PairGrow(a, b, op);
      PlainAgrees(a, op, env);
      MinusedNeedsInt(Exec(a, op).0, Exec(b, Exec(a, op).1).0, Exec(b, Exec(a, op).1).1);
      BareInteger(b, Exec(a, op).1, env);
      BareInner(b, env);
      CongSame(Value(b, env));
      CongAdd(Core(a, env) + Inner(a, env), Value(a, env), Value(b, env), Value(b, env));
    case _ => CongSame(Value(e, env));
  }

  lemma FineKept(e: Exp, op: Operand)
    requires Fine(op) && Exec(e, op).1.errors == op.errors
    ensures Fine(Exec(e, op).1)
  {
    hide *;
    ExecCollects(e, op, Zero);
    CollectsFine(op, Exec(e, op).1, Exec(e, op).0, Zero, Core(e, Zero), Inner(e, Zero));
  }

  /** A register times a factor that has been cut to n. */
  lemma CutProduct(r: int, n: int, value: int)
    requires Cong(n, value)
    ensures Cong(r * n, r * value) && r * value == value * r
  {
    hide Cong;
    CongSame(r);
    CongMul(r, r, n, value);
  }

  lemma PlainIntegers(a: Exp, b: Exp, op: Operand, env: Env)
    requires Plain(Mul(a, b)) && Exec(Mul(a, b), op).1.errors == op.errors
    requires Exec(a, op).0.IntVal? && Exec(b, Exec(a, op).1).0.IntVal?
    ensures Core(Mul(a, b), env) == Value(a, env) * Value(b, env)
  {
    hide Wrap, ToInt32, Cong, Scale;
    PairGrow(a, b, op);
    BareInteger(a, op, env);
    BareInteger(b, Exec(a, op).1, env);
  }

  lemma PlainFactorFirst(a: Exp, b: Exp, op: Operand, env: Env)
    requires Plain(Mul(a, b)) && Fine(op) && Exec(Mul(a, b), op).1.errors == op.errors
    requires Exec(a, op).0.IntVal? && !Exec(b, Exec(a, op).1).0.IntVal?
    ensures Cong(Core(Mul(a, b), env), Value(a, env) * Value(b, env))
  {
    hide Wrap, ToInt32, Cong, Scale, FactorFits;
    PairGrow(a, b, op);
    var (v, op1) := Exec(a, op);
    var (w, op2) := Exec(b, op1);
    ScaleNeedsBracket(w.r, v.v, op2);
    RegisterHandedBack(b, op1);
    FittingFactor(a, op, env);
    CutProduct(env.regs(b.r), ToInt32(Wrap(Core(a, env))), Value(a, env));
  }

  lemma PlainRegisterFirst(a: Exp, b: Exp, op: Operand, env: Env)
    requires Plain(Mul(a, b)) && Fine(op) && Exec(Mul(a, b), op).1.errors == op.errors
    requires !Exec(a, op).0.IntVal?
    ensures Cong(Core(Mul(a, b), env), Value(a, env) * Value(b, env))
  {
    hide Wrap, ToInt32, Cong, Scale, FactorFits;
    PairGrow(a, b, op);
    var (v, op1) := Exec(a, op);
    var (w, op2) := Exec(b, op1);
    ScaleNeedsBracket(v.r, w.v, op2);
    StillInBracket(b, op1);
    RegisterHandedBack(a, op);
    FittingFactor(b, op1, env);
    CutProduct(env.regs(a.r), ToInt32(Wrap(Core(b, env))), Value(b, env));
  }

  lemma PlainProduct(a: Exp, b: Exp, op: Operand, env: Env)
    requires Plain(Mul(a, b)) && Fine(op) && Exec(Mul(a, b), op).1.errors == op.errors
    ensures Cong(Core(Mul(a, b), env) + Inner(Mul(a, b), env), Value(a, env) * Value(b, env))
  {
    hide Core, Value, Exec, Cong, Fine;
    NoInner(a, b, env);
    if !Exec(a, op).0.IntVal? {
      PlainRegisterFirst(a, b, op, env);
    } else if !Exec(b, Exec(a, op).1).0.IntVal? {
      PlainFactorFirst(a, b, op, env);
    } else {
      PlainIntegers(a, b, op, env);
      CongSame(Value(a, env) * Value(b, env));
    }
  }

  lemma NoInner(a: Exp, b: Exp, env: Env)
    requires Plain(Mul(a, b))
    ensures Inner(Mul(a, b), env) == 0
  {
    BareInner(a, env);
    BareInner(b, env);
  }

  /** A plain memory operand accepted without error names its expression's value. */
  lemma PlainOperandRight(e: Exp, env: Env)
    requires Plain(e) && Operate(e).1.errors == 0 && Operate(e).0 == Mem
    ensures Cong(Address(Operate(e).1, env), Value(e, env))
  {
    hide Exec, Plain, Core, Inner, Value, Slot;
    Accepted(e, env);
    PlainAgrees(e, NewOperand, env);
    OperandMeans(e, env);
  }

  // ------------------------------------------------------------------ where they do not

  /** The parts of `c - d[i]` and `c * d[i]`. */
  lemma PairParts(c: nat, d: nat, i: Exp, env: Env)
    ensures var y := Bracket(Num(d), i, true);
      Value(Sub(Num(c), y), env) == c - (d + Value(i, env)) && Value(Mul(Num(c), y), env) == c * (d + Value(i, env))
      && Core(Sub(Num(c), y), env) == c - d && Core(Mul(Num(c), y), env) == c * d
      && Inner(Sub(Num(c), y), env) == Core(i, env) + Inner(i, env) == Inner(Mul(Num(c), y), env)
  {
    var y := Bracket(Num(d), i, true);
    assert Value(Num(c), env) == c == Core(Num(c), env) && Value(Num(d), env) == d == Core(Num(d), env);
    assert Value(y, env) == d + Value(i, env) && Core(y, env) == d;
    assert Inner(Num(c), env) == 0 == Inner(Num(d), env) && Inner(y, env) == Core(i, env) + Inner(i, env);
  }

  /** If the whole is accepted, so is the inside of its bracket. */
  lemma InsideAccepted(c: nat, d: nat, i: Exp)
    ensures var y := Bracket(Num(d), i, true);
      (Operate(Sub(Num(c), y)).1.errors == 0 || Operate(Mul(Num(c), y)).1.errors == 0) ==>
        Exec(i, Open(NewOperand)).1.errors == 0
  {
    hide Wrap, Close, Slot;
    var y := Bracket(Num(d), i, true);
    assert Exec(Num(d), NewOperand) == (IntVal(Wrap(d)), NewOperand);
    assert Exec(Num(c), NewOperand) == (IntVal(Wrap(c)), NewOperand);
    var (w, op) := Exec(i, Open(NewOperand));
    ErrorsGrow(i, Open(NewOperand));
    ActionsGrow(w, w, op, true);
    assert Exec(y, NewOperand) == (IntVal(Wrap(d)), Close(w, true, op));
    SlotGrow(Exec(Sub(Num(c), y), NewOperand).0, Close(w, true, op));
    SlotGrow(Exec(Mul(Num(c), y), NewOperand).0, Close(w, true, op));
  }

  /**
    A bracket after a subtrahend is added, not subtracted: `c - d[i]` names c - d plus the
    bracket; with a plain bracket that is right exactly when twice the bracket is zero.
   */
  lemma BracketInSubtrahend(c: nat, d: nat, i: Exp, env: Env)
    requires Operate(Sub(Num(c), Bracket(Num(d), i, true))).1.errors == 0
    ensures var e := Sub(Num(c), Bracket(Num(d), i, true)); var a := Address(Operate(e).1, env);
      Operate(e).0 == Mem && Cong(a, c - d + (Core(i, env) + Inner(i, env)))
      && (Cong(a, Value(e, env)) <==> Cong(Core(i, env) + Inner(i, env) + Value(i, env), 0))
      && (Plain(i) ==> (Cong(a, Value(e, env)) <==> Cong(2 * Value(i, env), 0)))
  {
    hide Exec, Value, Operate, Plain, Core, Inner, Cong;
    var e := Sub(Num(c), Bracket(Num(d), i, true));
    NamesMemory(e);
    OperandMeans(e, env);
    PairParts(c, d, i, env);
    var x, v := Core(i, env) + Inner(i, env), Value(i, env);
    Deviation(c - d + x, c - (d + v), x + v);
    if Plain(i) {
      InsideAccepted(c, d, i);
      PlainAgrees(i, Open(NewOperand), env);
      CongAdd(x, v, v, v) by { CongSame(v); }
      SameDeviation(x + v, 2 * v);
    }
  }

  /**
    A bracket after a factor is added after the multiplication: `c * d[i]` names c * d plus the
    bracket; with a plain bracket that is right exactly when c - 1 times the bracket is zero.
   */
  lemma BracketInFactor(c: nat, d: nat, i: Exp, env: Env)
    requires Operate(Mul(Num(c), Bracket(Num(d), i, true))).1.errors == 0
    ensures var e := Mul(Num(c), Bracket(Num(d), i, true)); var a := Address(Operate(e).1, env);
      Operate(e).0 == Mem && Cong(a, c * d + (Core(i, env) + Inner(i, env)))
      && (Cong(a, Value(e, env)) <==> Cong(Core(i, env) + Inner(i, env) - c * Value(i, env), 0))
      && (Plain(i) ==> (Cong(a, Value(e, env)) <==> Cong((1 - c) * Value(i, env), 0)))
  {
    hide Exec, Value, Operate, Plain, Core, Inner, Cong;
    var e := Mul(Num(c), Bracket(Num(d), i, true));
    NamesMemory(e);
    OperandMeans(e, env);
    PairParts(c, d, i, env);
    var x, v := Core(i, env) + Inner(i, env), Value(i, env);
    assert c * (d + v) == c * d + c * v && (1 - c) * v == v - c * v;
    Deviation(c * d + x, c * d + c * v, x - c * v);
    if Plain(i) {
      InsideAccepted(c, d, i);
      PlainAgrees(i, Open(NewOperand), env);
      CongAdd(x, v, c * v, c * v) by { CongSame(c * v); }
      SameDeviation(x - c * v, v - c * v);
    }
  }

  lemma NamesMemory(e: Exp)
    requires Operate(e).1.errors == 0 && !Bare(e)
    ensures Operate(e).0 == Mem
  {
    hide Exec, Slot, Bare, Core, Inner;
    Accepted(e, Zero);
  }

  lemma Deviation(a: int, value: int, d: int)
    requires a - value == d
    ensures Cong(a, value) <==> Cong(d, 0)
  {
  }

  lemma SameDeviation(a: int, b: int)
    requires Cong(a, b)
    ensures Cong(a, 0) <==> Cong(b, 0)
  {
    hide Cong;
    CongSym(a, b);
    if Cong(a, 0) { CongTrans(b, a, 0); }
    if Cong(b, 0) { CongTrans(a, b, 0); }
  }

  /** A register's factor is cut to 32 bits: `[c * r]` is right exactly when c fits. */
  lemma ScaleIsCut(c: nat, r: Reg)
    requires ToInt32(Wrap(c)) in {1, 2, 4, 8}
    ensures var e := Bracket(Missing, Mul(Num(c), RegExp(r)), true);
      Operate(e) == (Mem, Open(NewOperand).(inBracket := false, indexReg := Some(r), scale := ToInt32(Wrap(c))))
      && ((forall env :: Cong(Address(Operate(e).1, env), Value(e, env))) <==> FitsInt32(Wrap(c)))
  {
    var e := Bracket(Missing, Mul(Num(c), RegExp(r)), true);
    var s := ToInt32(Wrap(c));
    ScaledAlone(c, r);
    var one := Env(x => 1, x => 0);
    hide Exec, Operate, Wrap, ToInt32, Cong;
    assert forall env :: Address(Operate(e).1, env) == env.regs(r) * s;
    forall env: Env ensures Value(e, env) == c * env.regs(r) { ScaledValue(c, r, env); }
    CutFactor(c);
    if FitsInt32(Wrap(c)) {
      forall env ensures Cong(Address(Operate(e).1, env), Value(e, env)) {
        CongMul(env.regs(r), env.regs(r), s, c);
      }
    } else {
      assert Address(Operate(e).1, one) == s && Value(e, one) == c;
    }
  }

  lemma CutFactor(c: nat)
    requires ToInt32(Wrap(c)) in {1, 2, 4, 8}
    ensures Cong(ToInt32(Wrap(c)), c) <==> FitsInt32(Wrap(c))
    ensures forall x: int :: Cong(x, x)
  {
  }

  lemma ScaledValue(c: nat, r: Reg, env: Env)
    ensures Value(Bracket(Missing, Mul(Num(c), RegExp(r)), true), env) == c * env.regs(r)
  {
    assert Value(Num(c), env) == c && Value(RegExp(r), env) == env.regs(r) && Value(Missing, env) == 0;
    assert Value(Mul(Num(c), RegExp(r)), env) == c * env.regs(r);
  }

  lemma ScaledAlone(c: nat, r: Reg)
    requires ToInt32(Wrap(c)) in {1, 2, 4, 8}
    ensures Operate(Bracket(Missing, Mul(Num(c), RegExp(r)), true)) ==
      (Mem, Open(NewOperand).(inBracket := false, indexReg := Some(r), scale := ToInt32(Wrap(c))))
  {
    hide Wrap, ToInt32;
    var op := Open(NewOperand);
    assert Exec(Num(c), op) == (IntVal(Wrap(c)), op) && Exec(RegExp(r), op) == (RegVal(r), op);
    assert Exec(Mul(Num(c), RegExp(r)), op) == (Handled, Scale(r, Wrap(c), op));
    assert Exec(Missing, NewOperand) == (Handled, NewOperand);
  }

  /** The usual form `[b + i*s + d]` is accepted and fills every field. */
  lemma UsualFormAccepted(b: Reg, i: Reg, s: nat, d: nat)
    requires s in {1, 2, 4, 8}
    ensures Operate(Bracket(Missing, Add(Add(RegExp(b), Mul(RegExp(i), Num(s))), Num(d)), true)) ==
      (Mem, Open(NewOperand).(inBracket := false, baseReg := Some(b), indexReg := Some(i), scale := s,
                              constDisplacement := Wrap(d)))
  {
    var op := Open(NewOperand);
    var sum := Add(RegExp(b), Mul(RegExp(i), Num(s)));
    var op1 := op.(indexReg := Some(i), scale := s);
    var op2 := op1.(baseReg := Some(b));
    assert Wrap(s) == s && ToInt32(s) == s && Wrap(Wrap(d)) == Wrap(d);
    hide Wrap, ToInt32;
    assert Exec(RegExp(b), op) == (RegVal(b), op);
    assert Exec(RegExp(i), op) == (RegVal(i), op) && Exec(Num(s), op) == (IntVal(s), op);
    assert Exec(Mul(RegExp(i), Num(s)), op) == (Handled, op1);
    assert Exec(sum, op) == (Handled, op2);
    assert Exec(Num(d), op2) == (IntVal(Wrap(d)), op2);
    assert Exec(Add(sum, Num(d)), op) == (Handled, Displace(op2, Wrap(d)));
    assert Exec(Missing, NewOperand) == (Handled, NewOperand);
  }
}

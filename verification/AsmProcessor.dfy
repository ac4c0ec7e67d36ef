/**
  The operand processor itself (ldc/gen/asm-x86.h): it reads and acts at once.  Each parsing
  method is proved to be reading into a tree followed by the tree's actions.
 */
module AsmProcessor {
  import opened Options
  import opened AsmSyntax
  import opened AsmActions
  import opened AsmAddress
  import opened AsmAccept

  /** The processor while it parses one operand. */
  class Processor {
    var tokens: seq<Token>
    var operand: Operand

    constructor (ts: seq<Token>)
      ensures tokens == ts && operand == NewOperand
    {
      tokens, operand := ts, NewOperand;
    }

    method NextToken()
      modifies this
      ensures tokens == (if old(tokens) == [] then [] else old(tokens)[1..]) && operand == old(operand)
    {
      if tokens != [] { tokens := tokens[1..]; }
    }

    method ParsePrimary() returns (v: Val)
      modifies this
      ensures var (e, rest) := Primary(old(tokens)); tokens == rest && (v, operand) == Exec(e, old(operand))
    {
      if tokens == [] { return Handled; }
      match tokens[0]
      case Int(n) => v := IntVal(Wrap(n)); NextToken();
      case Register(r) => v := RegVal(r); NextToken();
      case Variable(s) => v := VarVal(s); NextToken();
      case Field(o) => v := FieldVal(o); NextToken();
      case _ => v := Handled;
    }

    method ParseUnary() returns (v: Val)
      modifies this
      ensures var (e, rest) := UnaryOf(old(tokens)); tokens == rest && (v, operand) == Exec(e, old(operand))
      decreases |tokens|
    {
      if Head(tokens, Plus) {
        NextToken();
        v := ParseUnary();
        if !v.IntVal? { v, operand := IntVal(0), Error(operand); }
      } else if Head(tokens, Minus) {
        NextToken();
        v := ParseUnary();
        if v.IntVal? { v := IntVal(Wrap(-v.v)); } else { v, operand := IntVal(0), Error(operand); }
      } else {
        v := ParsePrimary();
      }
    }

    method SlotExp(v: Val)
      modifies this
      ensures tokens == old(tokens) && operand == Slot(v, old(operand))
    {
      match v
      case IntVal(n) =>
        operand := operand.(constDisplacement := Wrap(operand.constDisplacement + n));
        if !operand.inBracket { operand := operand.(hasNumber := true); }
      case FieldVal(o) =>
        operand := operand.(constDisplacement := Wrap(operand.constDisplacement + o));
        if !operand.inBracket { operand := operand.(hasNumber := true); }
      case RegVal(r) =>
        if !operand.inBracket {
          if operand.reg.None? { operand := operand.(reg := Some(r)); } else { operand := Error(operand); }
        } else if operand.baseReg.None? {
          operand := operand.(baseReg := Some(r));
        } else if operand.indexReg.None? {
          operand := operand.(indexReg := Some(r), scale := 1);
        } else {
          operand := Error(operand);
        }
      case VarVal(s) =>
        if operand.symbol.None? { operand := operand.(symbol := Some(s)); } else { operand := Error(operand); }
      case Handled =>
    }

    method ParseBracket() returns (v: Val)
      modifies this
      ensures var (e, rest) := BrOf(old(tokens)); tokens == rest && (v, operand) == Exec(e, old(operand))
      decreases |tokens|, 1
    {
      hide UnaryOf, SumOf, Wrap, Slot;
      ghost var start, op0 := tokens, operand;
      ghost var acc;
      if Head(tokens, LeftBracket) {
        v, acc := Handled, Missing;
      } else {
        v := ParseUnary();
        acc := UnaryOf(start).0;
      }
      while Head(tokens, LeftBracket)
        invariant BrOf(start) == BrTail(acc, tokens) && (v, operand) == Exec(acc, op0)
        invariant |tokens| <= |start|
        decreases |tokens|
      {
        NextToken();
        ghost var inner := SumOf(tokens);
        operand := Open(operand);
        var w := ParseSum();
        SlotExp(w);
        operand := operand.(inBracket := false);
        if Head(tokens, RightBracket) {
          NextToken();
          acc := Bracket(acc, inner.0, true);
        } else {
          operand := Error(operand);
          acc := Bracket(acc, inner.0, false);
        }
      }
    }

    method TryScale(x: Val, y: Val) returns (done: bool)
      requires !(x.IntVal? && y.IntVal?)
      modifies this
      ensures tokens == old(tokens)
      ensures done <==> (x.IntVal? && y.RegVal?) || (x.RegVal? && y.IntVal?)
      ensures done ==> operand == Times(x, y, old(operand)).1
      ensures !done ==> operand == old(operand)
    {
      done := (x.IntVal? && y.RegVal?) || (x.RegVal? && y.IntVal?);
      if !done { return; }
      var r, n := if x.RegVal? then x.r else y.r, if x.RegVal? then y.v else x.v;
      if !operand.inBracket { operand := Error(operand); }
      if operand.scale != 0 || operand.indexReg.Some? {
        operand := Error(operand);
        return;
      }
      operand := operand.(indexReg := Some(r), scale := ToInt32(n));
      if operand.scale !in {1, 2, 4, 8} { operand := Error(operand); }
    }

    method ParseProduct() returns (v: Val)
      modifies this
      ensures var (e, rest) := ProductOf(old(tokens)); tokens == rest && (v, operand) == Exec(e, old(operand))
      decreases |tokens|, 2
    {
      v := ParseBracket();
      if Head(tokens, Star) {
        NextToken();
        var w := ParseProduct();
        if v.IntVal? && w.IntVal? {
          v := IntVal(Wrap(v.v * w.v));
        } else {
          var done := TryScale(v, w);
          if done { v := Handled; } else { operand := Error(operand); }
        }
      }
    }

    method ParseSum() returns (v: Val)
      modifies this
      ensures var (e, rest) := SumOf(old(tokens)); tokens == rest && (v, operand) == Exec(e, old(operand))
      decreases |tokens|, 3
    {
      ghost var start, op0 := tokens, operand;
      v := ParseProduct();
      ghost var acc := ProductOf(start).0;
      while Head(tokens, Plus) || Head(tokens, Minus)
        invariant SumOf(start) == SumTail(acc, tokens) && (v, operand) == Exec(acc, op0)
        invariant |tokens| <= |start|
        decreases |tokens|
      {
        var minus := Head(tokens, Minus);
        NextToken();
        ghost var b := ProductOf(tokens).0;
        var w := ParseProduct();
        acc := if minus then Sub(acc, b) else Add(acc, b);
        if v.IntVal? && w.IntVal? {
          v := IntVal(Wrap(if minus then v.v - w.v else v.v + w.v));
        } else {
          SlotExp(v);
          if minus {
            if w.IntVal? { w := IntVal(Wrap(-w.v)); } else { w, operand := IntVal(0), Error(operand); }
          }
          SlotExp(w);
          v := Handled;
        }
      }
    }

    method ParseOperand() returns (c: Class)
      requires operand == NewOperand
      modifies this
      ensures var (e, rest) := SumOf(old(tokens)); tokens == rest && (c, operand) == Operate(e)
    {
      var v := ParseSum();
      SlotExp(v);
      c, operand := Classify(operand).0, Classify(operand).1;
    }
  }

  /** From text to address: what an operand written out, parsed and accepted as memory names. */
  method ParseWritten(e: Exp) returns (c: Class, op: Operand)
    requires At(LSum, e)
    ensures (c, op) == Operate(e)
    ensures op.errors == 0 && c == Mem <==> IsMemory(e)
    ensures op.errors == 0 && c == RegClass <==> IsRegister(e)
    ensures op.errors == 0 && c == Immediate <==> IsImmediate(e)
    ensures op.errors == 0 && c == Mem ==> forall env ::
      Cong(Address(op, env), Core(e, env) + Inner(e, env))
      && (Cong(Address(op, env), Value(e, env)) <==> Cong(Core(e, env) + Inner(e, env), Value(e, env)))
    ensures op.errors == 0 && c == Mem && Plain(e) ==> forall env :: Cong(Address(op, env), Value(e, env))
  {
    hide Exec, Core, Inner, Value, Cong, Address, Operate, Plain, IsMemory, IsRegister, IsImmediate;
    AcceptedIff(e);
    var p := new Processor(Written(e));
    SumRead(e, []);
    assert Written(e) + [] == Written(e);
    c := p.ParseOperand();
    op := p.operand;
    if op.errors == 0 && c == Mem {
      forall env ensures
        Cong(Address(op, env), Core(e, env) + Inner(e, env))
        && (Cong(Address(op, env), Value(e, env)) <==> Cong(Core(e, env) + Inner(e, env), Value(e, env)))
        && (Plain(e) ==> Cong(Address(op, env), Value(e, env)))
      {
        OperandMeans(e, env);
        if Plain(e) { PlainOperandRight(e, env); }
      }
    }
  }
}

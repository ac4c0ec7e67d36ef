/**
  Operands of D inline assembly (ldc/gen/asm-x86.h): how a token list is read into a tree.
  The levels are those of the source's recursive descent that sums, products, brackets and
  signs need.
 */
module AsmSyntax {
  import opened Options

  type Reg = nat
  type Symbol = nat

  datatype Token =
    | Int(v: nat) | Register(r: Reg) | Variable(s: Symbol) | Field(offset: nat)
    | Plus | Minus | Star | LeftBracket | RightBracket | Other

  // ---------------------------------------------------------------------------- the tree

  datatype Exp =
    | Missing
    | Num(v: nat) | RegExp(r: Reg) | VarExp(s: Symbol) | FieldExp(offset: nat)
    | Neg(e: Exp) | Pos(e: Exp)
    | Bracket(head: Exp, inner: Exp, closed: bool)
    | Mul(a: Exp, b: Exp) | Add(a: Exp, b: Exp) | Sub(a: Exp, b: Exp)

  function Primary(ts: seq<Token>): (r: (Exp, seq<Token>))
    ensures |r.1| <= |ts|
  {
    if ts == [] then (Missing, ts)
    else match ts[0]
      case Int(v) => (Num(v), ts[1..])
      case Register(r) => (RegExp(r), ts[1..])
      case Variable(s) => (VarExp(s), ts[1..])
      case Field(o) => (FieldExp(o), ts[1..])
      case _ => (Missing, ts)
  }

  predicate Head(ts: seq<Token>, t: Token) { ts != [] && ts[0] == t }

  function UnaryOf(ts: seq<Token>): (r: (Exp, seq<Token>))
    ensures |r.1| <= |ts|
    decreases |ts|
  {
    if Head(ts, Plus) then var (e, rest) := UnaryOf(ts[1..]); (Pos(e), rest)
    else if Head(ts, Minus) then var (e, rest) := UnaryOf(ts[1..]); (Neg(e), rest)
    else Primary(ts)
  }

  function BrOf(ts: seq<Token>): (r: (Exp, seq<Token>))
    ensures |r.1| <= |ts|
    decreases |ts|, 1
  {
    if Head(ts, LeftBracket) then BrTail(Missing, ts)
    else var (e, rest) := UnaryOf(ts); BrTail(e, rest)
  }

  function BrTail(acc: Exp, ts: seq<Token>): (r: (Exp, seq<Token>))
    ensures |r.1| <= |ts|
    decreases |ts|, 0
  {
    if !Head(ts, LeftBracket) then (acc, ts)
    else
      var (inner, rest) := SumOf(ts[1..]);
      if Head(rest, RightBracket) then BrTail(Bracket(acc, inner, true), rest[1..])
      else BrTail(Bracket(acc, inner, false), rest)
  }

  function ProductOf(ts: seq<Token>): (r: (Exp, seq<Token>))
    ensures |r.1| <= |ts|
    decreases |ts|, 2
  {
    var (a, rest) := BrOf(ts);
    if !Head(rest, Star) then (a, rest)
    else var (b, rest2) := ProductOf(rest[1..]); (Mul(a, b), rest2)
  }

  function SumOf(ts: seq<Token>): (r: (Exp, seq<Token>))
    ensures |r.1| <= |ts|
    decreases |ts|, 3
  {
    var (a, rest) := ProductOf(ts);
    SumTail(a, rest)
  }

  function SumTail(acc: Exp, ts: seq<Token>): (r: (Exp, seq<Token>))
    ensures |r.1| <= |ts|
    decreases |ts|, 0
  {
    if Head(ts, Plus) then
      var (b, rest) := ProductOf(ts[1..]);
      SumTail(Add(acc, b), rest)
    else if Head(ts, Minus) then
      var (b, rest) := ProductOf(ts[1..]);
      SumTail(Sub(acc, b), rest)
    else (acc, ts)
  }

  // --------------------------------------------------------- trees written down and read

  datatype Level = LPrimary | LUnary | LBracket | LProduct | LSum

  /** Trees the grammar can produce from complete operands, by the level they appear at. */
  predicate At(l: Level, e: Exp)
    decreases e
  {
    match e
    case Missing => false
    case Num(_) => true
    case RegExp(_) => true
    case VarExp(_) => true
    case FieldExp(_) => true
    case Neg(x) => l != LPrimary && At(LUnary, x)
    case Pos(x) => l != LPrimary && At(LUnary, x)
    case Bracket(h, i, closed) =>
      l != LPrimary && l != LUnary && closed && (h.Missing? || At(LBracket, h)) && At(LSum, i)
    case Mul(a, b) => (l == LProduct || l == LSum) && At(LBracket, a) && At(LProduct, b)
    case Add(a, b) => l == LSum && At(LSum, a) && At(LProduct, b)
    case Sub(a, b) => l == LSum && At(LSum, a) && At(LProduct, b)
  }

  function Written(e: Exp): seq<Token> {
    match e
    case Missing => []
    case Num(v) => [Int(v)]
    case RegExp(r) => [Register(r)]
    case VarExp(s) => [Variable(s)]
    case FieldExp(o) => [Field(o)]
    case Neg(x) => [Minus] + Written(x)
    case Pos(x) => [Plus] + Written(x)
    case Bracket(h, i, closed) => Written(h) + ([LeftBracket] + (Written(i) + (if closed then [RightBracket] else [])))
    case Mul(a, b) => Written(a) + ([Star] + Written(b))
    case Add(a, b) => Written(a) + ([Plus] + Written(b))
    case Sub(a, b) => Written(a) + ([Minus] + Written(b))
  }

  lemma {:induction false} UnaryRead(e: Exp, rest: seq<Token>)
    requires At(LUnary, e)
    ensures UnaryOf(Written(e) + rest) == (e, rest)
    ensures !Head(Written(e) + rest, LeftBracket)
  {
    match e
    case Neg(x) =>
      UnaryRead(x, rest);
      assert Written(e) + rest == [Minus] + (Written(x) + rest);
    case Pos(x) =>
      UnaryRead(x, rest);
      assert Written(e) + rest == [Plus] + (Written(x) + rest);
    case _ => PrimaryRead(e, rest);
  }

  lemma PrimaryRead(e: Exp, rest: seq<Token>)
    requires e.Num? || e.RegExp? || e.VarExp? || e.FieldExp?
    ensures UnaryOf(Written(e) + rest) == (e, rest)
    ensures !Head(Written(e) + rest, LeftBracket)
  {
    var ts := Written(e) + rest;
    assert |Written(e)| == 1 && ts[0] == Written(e)[0] && ts[1..] == rest;
  }

  lemma BracketWritten(h: Exp, i: Exp, rest: seq<Token>)
    ensures Written(Bracket(h, i, true)) + rest == Written(h) + ([LeftBracket] + (Written(i) + ([RightBracket] + rest)))
  {
  }

  lemma {:induction false} BrRead(e: Exp, rest: seq<Token>)
    requires At(LBracket, e)
    ensures BrOf(Written(e) + rest) == BrTail(e, rest)
    decreases e, 0
  {
    if e.Bracket? {
      var h, i := e.head, e.inner;
      var after := [RightBracket] + rest;
      var ts := [LeftBracket] + (Written(i) + after);
      BracketWritten(h, i, rest);
      if h.Missing? {
        assert Written(h) + ts == ts;
      } else {
        BrRead(h, ts);
      }
      assert ts[1..] == Written(i) + after;
      SumRead(i, after);
      assert after[1..] == rest;
    } else {
      UnaryRead(e, rest);
    }
  }

  lemma WrittenSplit(a: seq<Token>, t: Token, b: seq<Token>, rest: seq<Token>)
    ensures a + ([t] + b) + rest == a + ([t] + (b + rest)) && ([t] + (b + rest))[1..] == b + rest
  {
  }

  lemma {:induction false} ProductRead(e: Exp, rest: seq<Token>)
    requires At(LProduct, e) && !Head(rest, LeftBracket) && !Head(rest, Star)
    ensures ProductOf(Written(e) + rest) == (e, rest)
    decreases e, 1
  {
    hide UnaryOf, BrOf, SumOf;
    if e.Mul? {
      var ts := [Star] + (Written(e.b) + rest);
      WrittenSplit(Written(e.a), Star, Written(e.b), rest);
      BrRead(e.a, ts);
      ProductRead(e.b, rest);
    } else {
      BrRead(e, rest);
    }
  }

  lemma {:induction false} SumPrefixRead(e: Exp, rest: seq<Token>)
    requires At(LSum, e) && !Head(rest, LeftBracket) && !Head(rest, Star)
    ensures SumOf(Written(e) + rest) == SumTail(e, rest)
    decreases e, 2
  {
    if e.Add? || e.Sub? {
      var ts := [if e.Add? then Plus else Minus] + (Written(e.b) + rest);
      WrittenSplit(Written(e.a), ts[0], Written(e.b), rest);
      hide ProductOf;
      SumPrefixRead(e.a, ts);
      ProductRead(e.b, rest);
    } else {
      ProductRead(e, rest);
    }
  }

  /** Reading undoes writing, whatever follows that cannot continue the operand. */
  lemma SumRead(e: Exp, rest: seq<Token>)
    requires At(LSum, e)
    requires rest == [] || rest[0] in {RightBracket, Other}
    ensures SumOf(Written(e) + rest) == (e, rest)
    decreases e, 3
  {
    SumPrefixRead(e, rest);
  }
}

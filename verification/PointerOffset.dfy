/**
  Pointer arithmetic (ldc/gen/binops.cpp).  The front end hands over the offset in bytes;
  emitPointerOffset tries to get back to an element index by taking a multiplication by the
  element size off the offset expression.  Addresses are compared modulo the word size.
 */
module PointerOffset {
  import opened Options

  datatype Exp = Const(v: nat) | Neg(e: Exp) | Mul(e1: Exp, e2: Exp) | Var(id: nat)

  type Env = nat -> int

  function Value(e: Exp, env: Env): int {
    match e
    case Const(v) => v
    case Neg(x) => -Value(x, env)
    case Mul(a, b) => Value(a, env) * Value(b, env)
    case Var(id) => env(id)
  }

  // ------------------------------------------------------------------- modular arithmetic

  /** Equal modulo the word size. */
  ghost predicate Cong(a: int, b: int, word: int) { exists k: int :: a - b == Times(k, word) }

  function Times(k: int, word: int): int { k * word }

  lemma CongFrom(a: int, b: int, k: int, word: int)
    requires a - b == k * word
    ensures Cong(a, b, word)
  {
    assert a - b == Times(k, word);
  }

  lemma CongSame(a: int, word: int)
    ensures Cong(a, a, word)
  {
    CongFrom(a, a, 0, word);
  }

  lemma CongScale(a: int, b: int, c: int, word: int)
    requires Cong(a, b, word)
    ensures Cong(c * a, c * b, word)
  {
    var k :| a - b == Times(k, word);
    calc {
      c * a - c * b;
      c * (a - b);
      c * (k * word);
      (c * k) * word;
    }
    CongFrom(c * a, c * b, c * k, word);
  }

  lemma CongAdd(a: int, b: int, c: int, d: int, word: int)
    requires Cong(a, b, word) && Cong(c, d, word)
    ensures Cong(a + c, b + d, word) && Cong(a - c, b - d, word)
  {
    var k :| a - b == Times(k, word);
    var l :| c - d == Times(l, word);
    CongFrom(a + c, b + d, k + l, word);
    CongFrom(a - c, b - d, k - l, word);
  }

  lemma CongTrans(a: int, b: int, c: int, word: int)
    requires Cong(a, b, word) && Cong(b, c, word)
    ensures Cong(a, c, word) && Cong(b, a, word)
  {
    CongSame(b, word);
    CongSame(a, word);
    CongAdd(a, b, b, c, word);
    assert a + b - (b + c) == a - c;
    var k :| (a + b) - (b + c) == Times(k, word);
    CongFrom(a, c, k, word);
    var l :| a - b == Times(l, word);
    CongFrom(b, a, -l, word);
  }

  lemma CongMod(a: int, word: int)
    requires word > 0
    ensures Cong(a % word, a, word)
  {
    var q := a / word;
    assert a == q * word + a % word;
    CongFrom(a % word, a, -q, word);
  }

  // ---------------------------------------------------------------------------- extraction

  function LeadingNegations(e: Exp): nat { if e.Neg? then 1 + LeadingNegations(e.e) else 0 }

  function Core(e: Exp): Exp { if e.Neg? then Core(e.e) else e }

  /** Under its negations the expression is a multiplication by the constant element size. */
  predicate Strided(e: Exp, size: nat) {
    Core(e).Mul? && Core(e).e2 == Const(size)
  }

  predicate Odd(n: nat) { n % 2 == 1 }

  method ExtractNoStrideInc(e0: Exp, size: nat, negate0: bool) returns (r: Option<Exp>, negate: bool)
    ensures negate == (negate0 != Odd(LeadingNegations(e0)))
    ensures r == if Strided(e0, size) then Some(Core(e0).e1) else None
  {
    var e := e0;
    negate := negate0;
    while e.Neg?
      invariant Core(e) == Core(e0)
      invariant (negate != Odd(LeadingNegations(e))) == (negate0 != Odd(LeadingNegations(e0)))
      decreases e
    {
      negate := !negate;
      e := e.e;
    }
    if !e.Mul? { return None, negate; }
    if !e.e2.Const? { return None, negate; }
    if e.e2.v != size { return None, negate; }
    return Some(e.e1), negate;
  }

  lemma {:induction false} CoreValue(e: Exp, env: Env)
    ensures Value(e, env) == if Odd(LeadingNegations(e)) then -Value(Core(e), env) else Value(Core(e), env)
  {
    if e.Neg? { CoreValue(e.e, env); }
  }

  // ------------------------------------------------------------------------------ emission

  /** The address of element index, counted in elements of the given size. */
  function Gep(base: int, size: nat, index: int): int { base + index * size }

  function Signed(negate: bool, v: int): int { if negate then -v else v }

  /** What the front end asked for. */
  function Wanted(base: int, offset: Exp, negate: bool, env: Env): int {
    base + Signed(negate, Value(offset, env))
  }

  /** Offsets that are neither constant nor strided but have lost an odd number of negations. */
  predicate LosesSign(offset: Exp, size: nat) {
    !offset.Const? && !Strided(offset, size) && Odd(LeadingNegations(offset))
  }

  /**
    The emitted address.  It is the wanted one exactly if no sign is lost, or the byte offset
    is its own negative modulo the word size.
   */
  method EmitPointerOffset(base: int, offset: Exp, negateOffset: bool, pointeeSize: nat, env: Env, word: int)
      returns (addr: int)
    requires word > 0
    ensures Cong(addr, Wanted(base, offset, negateOffset, env), word) <==>
      !LosesSign(offset, pointeeSize) || Cong(2 * Value(offset, env), 0, word)
  {
    var elemSize, llOffset, negate := pointeeSize, 0, negateOffset;
    if offset.Const? {
      var byteOffset := offset.v;
      if byteOffset == 0 {
        addr := base;
        CongSame(base, word);
        return;
      }
      if pointeeSize != 0 && byteOffset % pointeeSize == 0 {
        llOffset := (byteOffset / pointeeSize) % word;
        CongMod(byteOffset / pointeeSize, word);
      } else {
        elemSize := 1;
        llOffset := byteOffset % word;
        CongMod(byteOffset, word);
      }
      if negate { llOffset := -llOffset; }
      addr := Gep(base, elemSize, llOffset);
      ConstantRight(base, byteOffset, elemSize, if negate then -llOffset else llOffset, negate, word);
    } else {
      var noStrideInc;
      noStrideInc, negate := ExtractNoStrideInc(offset, pointeeSize, negate);
      var e := if noStrideInc.Some? then noStrideInc.value else offset;
      llOffset := Value(e, env) % word;
      CongMod(Value(e, env), word);
      if noStrideInc.None? { elemSize := 1; }
      ghost var plain := llOffset;
      if negate { llOffset := -llOffset; }
      addr := Gep(base, elemSize, llOffset);
      EmittedRightIff(base, offset, e, negateOffset, pointeeSize, env, word, plain);
    }
  }

  lemma ConstantRight(base: int, byteOffset: nat, size: nat, index: int, negate: bool, word: int)
    requires (size == 1 && Cong(index, byteOffset, word))
      || (size > 0 && byteOffset % size == 0 && Cong(index, byteOffset / size, word))
    ensures Cong(Gep(base, size, Signed(negate, index)), base + Signed(negate, byteOffset), word)
  {
    var q := if size == 1 then byteOffset as int else byteOffset / size;
    assert q * size == byteOffset;
    assert byteOffset / 1 == byteOffset;
    GepRight(base, size, index, q, negate, word);
  }

  lemma GepRight(base: int, size: nat, index: int, q: int, negate: bool, word: int)
    requires Cong(index, q, word)
    ensures Cong(Gep(base, size, Signed(negate, index)), base + Signed(negate, q * size), word)
  {
    var c := if negate then -(size as int) else size;
    CongScale(index, q, c, word);
    CongSame(base, word);
    CongAdd(base, base, c * index, c * q, word);
    assert Gep(base, size, Signed(negate, index)) == base + c * index;
    assert base + Signed(negate, q * size) == base + c * q;
  }

  lemma EmittedRightIff(base: int, offset: Exp, e: Exp, negateOffset: bool, size: nat, env: Env, word: int, plain: int)
    requires !offset.Const? && Cong(plain, Value(e, env), word)
    requires e == if Strided(offset, size) then Core(offset).e1 else offset
    ensures var negate := negateOffset != Odd(LeadingNegations(offset));
      var addr := Gep(base, if Strided(offset, size) then size else 1, Signed(negate, plain));
      Cong(addr, Wanted(base, offset, negateOffset, env), word) <==>
        !LosesSign(offset, size) || Cong(2 * Value(offset, env), 0, word)
  {
    var negate := negateOffset != Odd(LeadingNegations(offset));
    var v := Value(offset, env);
    CoreValue(offset, env);
    if Strided(offset, size) {
      assert Value(Core(offset), env) == Value(e, env) * size;
      GepRight(base, size, plain, Value(e, env), negate, word);
    } else {
      GepRight(base, 1, plain, v, negate, word);
      if Odd(LeadingNegations(offset)) {
        WrongSign(Gep(base, 1, Signed(negate, plain)), base, v, negate, word);
      }
    }
  }

  /** An address off by the sign of its offset is right exactly if twice the offset is zero. */
  lemma WrongSign(addr: int, base: int, v: int, negate: bool, word: int)
    requires Cong(addr, base + Signed(negate, v), word)
    ensures Cong(addr, base + Signed(!negate, v), word) <==> Cong(2 * v, 0, word)
  {
    var x, y := base + Signed(negate, v), base + Signed(!negate, v);
    CongTrans(addr, x, x, word) by { CongSame(x, word); }
    assert x - y == 2 * Signed(negate, v);
    if Cong(addr, y, word) {
      CongTrans(x, addr, y, word);
      var k :| x - y == Times(k, word);
      CongFrom(2 * v, 0, if negate then -k else k, word);
    }
    if Cong(2 * v, 0, word) {
      var k :| 2 * v - 0 == Times(k, word);
      CongFrom(x, y, if negate then -k else k, word);
      CongTrans(addr, x, y, word);
    }
  }

  /** `p + -x` with a plain variable x goes to `p + x`, for every element size. */
  lemma NegatedVariableLosesSign(id: nat, size: nat)
    ensures LosesSign(Neg(Var(id)), size)
    ensures !LosesSign(Neg(Mul(Var(id), Const(size))), size)
  {
    var v, m := Var(id), Mul(Var(id), Const(size));
    assert Core(v) == v && LeadingNegations(v) == 0;
    assert Core(m) == m && Core(Neg(m)) == m;
  }
}

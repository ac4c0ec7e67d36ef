/**
  translateTemplate (ldc/gen/asm-gcc.cpp): a GCC inline-assembly template becomes an LLVM
  one.  GCC writes a literal percent sign as %% and introduces operands by %; LLVM writes a
  literal dollar sign as $$ and introduces operands by $.
 */
module GccTemplate {

  /** What an assembler template says: characters to copy, and points where an operand starts. */
  datatype Item = Literal(c: char) | OperandHere

  /** A template read with the given character as escape and introducer. */
  function Read(intro: char, s: string): seq<Item> {
    if s == [] then []
    else if s[0] != intro then [Literal(s[0])] + Read(intro, s[1..])
    else if |s| > 1 && s[1] == intro then [Literal(intro)] + Read(intro, s[2..])
    else [OperandHere] + Read(intro, s[1..])
  }

  function Translated(s: string): string {
    if s == [] then []
    else if s[0] == '$' then "$$" + Translated(s[1..])
    else if s[0] != '%' then [s[0]] + Translated(s[1..])
    else if |s| > 1 && s[1] == '%' then "%" + Translated(s[2..])
    else "$" + Translated(s[1..])
  }

  /** No operand of the GCC template starts with a dollar sign. */
  predicate NoDollarOperand(s: string) {
    if s == [] then true
    else if s[0] != '%' then NoDollarOperand(s[1..])
    else if |s| > 1 && s[1] == '%' then NoDollarOperand(s[2..])
    else !(|s| > 1 && s[1] == '$') && NoDollarOperand(s[1..])
  }

  method TranslateTemplate(insn: string) returns (result: string)
    ensures result == Translated(insn)
    ensures Read('$', result) == Read('%', insn) <==> NoDollarOperand(insn)
  {
    hide Translated, Read, NoDollarOperand;
    var n, i := |insn|, 0;
    result := "";
    while i < n
      invariant 0 <= i <= n && result + Translated(insn[i..]) == Translated(insn)
    {
      var c := insn[i];
      ghost var done := result;
      StepTranslated(insn, i);
      if c == '$' {
        result := result + "$$";
      } else if c == '%' {
        if i < n - 1 && insn[i + 1] == '%' {
          result := result + "%";
          i := i + 1;
        } else {
          result := result + "$";
        }
      } else {
        result := result + [c];
      }
      i := i + 1;
      assert result + Translated(insn[i..]) == done + (result[|done|..] + Translated(insn[i..]));
    }
    NothingLeft(insn);
    SameReadingIff(insn);
  }

  lemma NothingLeft(s: string)
    ensures s[0..] == s && Translated(s[|s|..]) == ""
  {
  }

  lemma StepTranslated(s: string, i: nat)
    requires i < |s|
    ensures var t := Translated(s[i..]);
      if s[i] == '$' then t == "$$" + Translated(s[i + 1..])
      else if s[i] != '%' then t == [s[i]] + Translated(s[i + 1..])
      else if i + 1 < |s| && s[i + 1] == '%' then t == "%" + Translated(s[i + 2..])
      else t == "$" + Translated(s[i + 1..])
  {
    assert s[i..][1..] == s[i + 1..];
    if i + 1 < |s| { assert s[i..][2..] == s[i + 2..]; }
  }

  lemma ReadLiteral(intro: char, c: char, s: string)
    requires c != intro
    ensures Read(intro, [c] + s) == [Literal(c)] + Read(intro, s)
  {
    assert ([c] + s)[1..] == s;
  }

  lemma ReadEscaped(intro: char, s: string)
    ensures Read(intro, [intro, intro] + s) == [Literal(intro)] + Read(intro, s)
  {
    assert ([intro, intro] + s)[2..] == s;
  }

  lemma ReadOperand(intro: char, s: string)
    requires s == [] || s[0] != intro
    ensures Read(intro, [intro] + s) == [OperandHere] + Read(intro, s)
  {
    assert ([intro] + s)[1..] == s;
  }

  lemma SameTail(x: Item, a: seq<Item>, b: seq<Item>)
    ensures [x] + a == [x] + b <==> a == b
  {
    assert ([x] + a)[1..] == a && ([x] + b)[1..] == b;
  }

  /** The translation keeps the reading exactly for the templates without a dollar operand. */
  lemma {:induction false} SameReadingIff(s: string)
    ensures Read('$', Translated(s)) == Read('%', s) <==> NoDollarOperand(s)
    decreases |s|
  {
    if s == [] {
    } else if s[0] == '$' {
      SameReadingIff(s[1..]);
      ReadEscaped('$', Translated(s[1..]));
      SameTail(Literal('$'), Read('$', Translated(s[1..])), Read('%', s[1..]));
    } else if s[0] != '%' {
      SameReadingIff(s[1..]);
      ReadLiteral('$', s[0], Translated(s[1..]));
      SameTail(Literal(s[0]), Read('$', Translated(s[1..])), Read('%', s[1..]));
    } else if |s| > 1 && s[1] == '%' {
      SameReadingIff(s[2..]);
      ReadLiteral('$', '%', Translated(s[2..]));
      SameTail(Literal('%'), Read('$', Translated(s[2..])), Read('%', s[2..]));
    } else if |s| > 1 && s[1] == '$' {
      var rest := Translated(s[2..]);
      assert s[1..][1..] == s[2..] && Translated(s) == "$$" + ("$" + rest);
      ReadEscaped('$', "$" + rest);
      assert Read('$', Translated(s))[0] == Literal('$') && Read('%', s)[0] == OperandHere;
    } else {
      SameReadingIff(s[1..]);
      ReadOperand('$', Translated(s[1..]));
      SameTail(OperandHere, Read('$', Translated(s[1..])), Read('%', s[1..]));
    }
  }

  /** Distinct readings come from distinct translations: nothing is conflated where the reading is kept. */
  lemma TranslationInjective(s: string, t: string)
    requires NoDollarOperand(s) && NoDollarOperand(t) && Translated(s) == Translated(t)
    ensures s == t
  {
    SameReadingIff(s);
    SameReadingIff(t);
    ReadInjective(s, t);
  }

  /** A template is determined by how it is read. */
  lemma {:induction false} ReadInjective(s: string, t: string)
    requires Read('%', s) == Read('%', t)
    ensures s == t
    decreases |s|
  {
    if s == [] || t == [] {
    } else {
      assert Read('%', s)[0] == Read('%', t)[0];
      var k := if s[0] == '%' && |s| > 1 && s[1] == '%' then 2 else 1;
      var l := if t[0] == '%' && |t| > 1 && t[1] == '%' then 2 else 1;
      assert k == l && s[..k] == t[..l];
      assert Read('%', s)[1..] == Read('%', s[k..]) && Read('%', t)[1..] == Read('%', t[l..]);
      ReadInjective(s[k..], t[l..]);
      assert s == s[..k] + s[k..] && t == t[..l] + t[l..];
    }
  }
}

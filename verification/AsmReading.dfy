/**
  The finished text of an asm block as LLVM reads it: `$`, a modifier and the longest run of
  digits that follows name an operand, everything else is copied.
 */
module AsmReading {
  import opened AsmText
  import opened AsmOperands
  import opened AsmBlock
  import opened AsmNumbering
  import opened AsmGotos

  datatype Item = Char(c: char) | OperandItem(pre: string, num: nat)

  function ReadText(s: string): seq<Item>
    decreases |s|, 0
  {
    if s == "" then [] else if s[0] != '$' then [Char(s[0])] + ReadText(s[1..]) else ReadModifier(s[1..], "$")
  }

  function ReadModifier(s: string, pre: string): seq<Item>
    decreases |s|, 1
  {
    if s == "" then []
    else if IsDigit(s[0]) then ReadNumber(s[1..], pre, DigitVal(s[0]))
    else ReadModifier(s[1..], pre + [s[0]])
  }

  function ReadNumber(s: string, pre: string, n: nat): seq<Item>
    decreases |s|, 1
  {
    if s != "" && IsDigit(s[0]) then ReadNumber(s[1..], pre, 10 * n + DigitVal(s[0]))
    else [OperandItem(pre, n)] + ReadText(s)
  }

  predicate StartsDigit(s: string) { s != "" && IsDigit(s[0]) }

  // ---------------------------------------------------------------------- single chunks

  function Chars(t: string): (r: seq<Item>)
    ensures |r| == |t|
  {
    seq(|t|, i requires 0 <= i < |t| => Char(t[i]))
  }

  lemma {:induction false} ReadLit(t: string, rest: string)
    requires '$' !in t
    ensures ReadText(t + rest) == Chars(t) + ReadText(rest)
  {
    if t == "" {
      assert t + rest == rest;
    } else {
      assert (t + rest)[1..] == t[1..] + rest && t[0] in t;
      ReadLit(t[1..], rest);
      assert Chars(t) == [Char(t[0])] + Chars(t[1..]);
    }
  }

  lemma {:induction false} ReadPlain(x: string, s: string, pre: string)
    requires forall k :: 0 <= k < |x| ==> !IsDigit(x[k])
    ensures ReadModifier(x + s, pre) == ReadModifier(s, pre + x)
  {
    if x == "" {
      assert x + s == s && pre + x == pre;
    } else {
      assert (x + s)[1..] == x[1..] + s;
      ReadPlain(x[1..], s, pre + [x[0]]);
      assert pre + [x[0]] + x[1..] == pre + x;
    }
  }

  /** The number that digits stand for, read on from acc. */
  function Fold(acc: nat, ds: string): nat
    requires forall k :: 0 <= k < |ds| ==> IsDigit(ds[k])
  {
    if ds == "" then acc else 10 * Fold(acc, ds[..|ds| - 1]) + DigitVal(ds[|ds| - 1])
  }

  lemma {:induction false} FoldFirst(acc: nat, ds: string)
    requires ds != "" && forall k :: 0 <= k < |ds| ==> IsDigit(ds[k])
    ensures Fold(acc, ds) == Fold(10 * acc + DigitVal(ds[0]), ds[1..])
  {
    var n := |ds| - 1;
    if n > 0 {
      FoldFirst(acc, ds[..n]);
      assert ds[1..][..n - 1] == ds[..n][1..];
    } else {
      assert ds[..0] == "" && ds[1..] == "";
    }
  }

  lemma {:induction false} FoldDecimal(n: nat)
    ensures Fold(0, Decimal(n)) == n
  {
    var d := Decimal(n);
    if n < 10 {
      assert d[..0] == "";
    } else {
      FoldDecimal(n / 10);
      assert d[..|d| - 1] == Decimal(n / 10);
    }
  }

  lemma {:induction false} ReadDigits(ds: string, rest: string, pre: string, acc: nat)
    requires forall k :: 0 <= k < |ds| ==> IsDigit(ds[k])
    ensures ReadNumber(ds + rest, pre, acc) == ReadNumber(rest, pre, Fold(acc, ds))
  {
    if ds == "" {
      assert ds + rest == rest;
    } else {
      assert (ds + rest)[1..] == ds[1..] + rest;
      FoldFirst(acc, ds);
      ReadDigits(ds[1..], rest, pre, 10 * acc + DigitVal(ds[0]));
    }
  }

  /** A reference is read up to its last digit, and on through digits that happen to follow. */
  lemma ReadRef(pre: string, n: nat, rest: string)
    requires GoodPrefix(pre)
    ensures ReadText(pre + Decimal(n) + rest) == ReadNumber(rest, pre, n)
  {
    var d := Decimal(n);
    var s := pre + d + rest;
    assert s[1..] == pre[1..] + (d + rest) && ["$"[0]] + pre[1..] == pre;
    ReadPlain(pre[1..], d + rest, "$");
    assert (d + rest)[1..] == d[1..] + rest;
    ReadDigits(d[1..], rest, pre, DigitVal(d[0]));
    FoldFirst(0, d);
    FoldDecimal(n);
  }

  /** Digits that follow are taken for part of the number: some characters are lost. */
  lemma {:induction false} NumberLength(s: string, pre: string, n: nat)
    ensures |ReadNumber(s, pre, n)| <= 1 + |ReadText(s)|
    ensures StartsDigit(s) ==> |ReadNumber(s, pre, n)| < 1 + |ReadText(s)|
    decreases |s|
  {
    if StartsDigit(s) { NumberLength(s[1..], pre, 10 * n + DigitVal(s[0])); }
  }

  // ----------------------------------------------------------------------- chunk lists

  /** Finished: no hole is left. */
  ghost predicate Finished(cs: seq<Chunk>) { forall k :: 0 <= k < |cs| ==> !cs[k].Hole? }

  function ItemsOf(c: Chunk): seq<Item> {
    match c
    case Lit(t) => Chars(t)
    case Ref(pre, n) => [OperandItem(pre, n)]
    case Hole(_, _, _) => []
  }

  function Items(cs: seq<Chunk>): seq<Item> { if cs == [] then [] else ItemsOf(cs[0]) + Items(cs[1..]) }

  /** No reference is followed by a digit. */
  ghost predicate Separated(cs: seq<Chunk>)
    requires Good(cs)
  {
    cs != [] ==> (cs[0].Ref? ==> !StartsDigit(Render(cs[1..]))) && Separated(cs[1..])
  }

  /** LLVM reads exactly the references that were written, if and only if no digit follows one. */
  lemma {:induction false} ReadsIffSeparated(cs: seq<Chunk>)
    requires Good(cs) && Finished(cs)
    ensures |ReadText(Render(cs))| <= |Items(cs)|
    ensures ReadText(Render(cs)) == Items(cs) <==> Separated(cs)
    ensures !Separated(cs) ==> |ReadText(Render(cs))| < |Items(cs)|
  {
    if cs != [] {
      var tail, r := cs[1..], Render(cs[1..]);
      ReadsIffSeparated(tail);
      match cs[0]
      case Lit(t) => ReadLit(t, r);
      case Ref(pre, n) =>
        ReadRef(pre, n, r);
        NumberLength(r, pre, n);
    }
  }

  lemma {:induction false} ItemsAppend(a: seq<Chunk>, b: seq<Chunk>)
    ensures Items(a + b) == Items(a) + Items(b)
  {
    if a == [] {
      assert a + b == b;
    } else {
      assert (a + b)[1..] == a[1..] + b;
      ItemsAppend(a[1..], b);
    }
  }

  lemma GoodParts(a: seq<Chunk>, b: seq<Chunk>)
    requires a != [] && Good(a) && Good(b)
    ensures Good(a[1..]) && Good(a[1..] + b)
  {
  }

  lemma {:induction false} SeparatedAppend(a: seq<Chunk>, b: seq<Chunk>)
    requires Good(a) && Good(b) && Good(a + b) && !StartsDigit(Render(b))
    ensures Separated(a + b) <==> Separated(a) && Separated(b)
  {
    hide Render, Good;
    if a == [] {
      assert a + b == b;
    } else {
      assert (a + b)[1..] == a[1..] + b && (a + b)[0] == a[0];
      GoodParts(a, b);
      RenderAppend(a[1..], b);
      SeparatedAppend(a[1..], b);
    }
  }

  lemma {:induction false} EmptyText(cs: seq<Chunk>)
    requires Good(cs) && Finished(cs)
    ensures Render(cs) == "" <==> Items(cs) == []
    ensures Render(cs) == "" ==> Separated(cs)
  {
    if cs != [] { EmptyText(cs[1..]); }
  }

  // -------------------------------------------------------------------- whole blocks

  const NewLine := "\n\t"

  function AppendItems(acc: seq<Item>, line: seq<Item>): seq<Item> {
    (if acc == [] then [] else acc + Chars(NewLine)) + line
  }

  ghost predicate AllFinished(final: seq<seq<Chunk>>) {
    forall i :: 0 <= i < |final| ==> Good(final[i]) && Finished(final[i])
  }

  /** The block as one list: lines are joined as the source joins them. */
  ghost function Flat(final: seq<seq<Chunk>>): (f: seq<Chunk>)
    requires AllFinished(final)
    ensures Good(f) && Finished(f)
  {
    if final == [] then []
    else
      var f, line := Flat(final[..|final| - 1]), final[|final| - 1];
      WithLineGood(f, line);
      WithLine(f, line)
  }

  lemma NewLineChunk()
    ensures Good([Lit(NewLine)]) && Render([Lit(NewLine)]) == NewLine && Items([Lit(NewLine)]) == Chars(NewLine)
    ensures Separated([Lit(NewLine)])
  {
    var c := [Lit(NewLine)];
    assert c[1..] == [] && Render(c) == NewLine + Render(c[1..]) && Items(c) == Chars(NewLine) + Items(c[1..]);
  }

  ghost function WithLine(f: seq<Chunk>, line: seq<Chunk>): seq<Chunk>
    requires Good(f)
  {
    (if Render(f) == "" then [] else f + [Lit(NewLine)]) + line
  }

  lemma WithLineGood(f: seq<Chunk>, line: seq<Chunk>)
    requires Good(f) && Finished(f) && Good(line) && Finished(line)
    ensures Good(WithLine(f, line)) && Finished(WithLine(f, line)) && Good(f + [Lit(NewLine)]) && Good([Lit(NewLine)] + line)
  {
    hide Render;
    NewLineChunk();
  }

  lemma WithLineText(f: seq<Chunk>, line: seq<Chunk>)
    requires Good(f) && Good(line) && Good(WithLine(f, line))
    ensures Render(WithLine(f, line)) == AppendLine(Render(f), Render(line))
  {
    hide Render, Good;
    var nl := [Lit(NewLine)];
    NewLineChunk();
    if Render(f) == "" {
      assert [] + line == line;
    } else {
      RenderAppend(f, nl);
      RenderAppend(f + nl, line);
    }
  }

  lemma WithLineItems(f: seq<Chunk>, line: seq<Chunk>)
    requires Good(f) && Finished(f)
    ensures Items(WithLine(f, line)) == AppendItems(Items(f), Items(line))
  {
    hide Items, Render, Good, Finished;
    var nl := [Lit(NewLine)];
    NewLineChunk();
    EmptyText(f);
    if Render(f) == "" {
      assert [] + line == line;
    } else {
      ItemsAppend(f, nl);
      ItemsAppend(f + nl, line);
    }
  }

  lemma WithLineSeparated(f: seq<Chunk>, line: seq<Chunk>)
    requires Good(f) && Finished(f) && Good(line) && Finished(line) && Good(WithLine(f, line))
    ensures Separated(WithLine(f, line)) <==> Separated(f) && Separated(line)
  {
    hide Render, Separated, Good, Finished;
    var nl := [Lit(NewLine)];
    NewLineChunk();
    EmptyText(f);
    WithLineGood(f, line);
    if Render(f) == "" {
      assert [] + line == line;
    } else {
      RenderAppend(nl, line);
      assert f + nl + line == f + (nl + line);
      SeparatedAppend(f, nl + line);
      SeparatedNewLine(line);
    }
  }

  lemma SeparatedNewLine(line: seq<Chunk>)
    requires Good(line) && Good([Lit(NewLine)] + line)
    ensures Separated([Lit(NewLine)] + line) <==> Separated(line)
  {
    assert ([Lit(NewLine)] + line)[1..] == line;
  }

  function JoinItems(final: seq<seq<Chunk>>): seq<Item> {
    if final == [] then [] else AppendItems(JoinItems(final[..|final| - 1]), Items(final[|final| - 1]))
  }

  ghost predicate AllSeparated(final: seq<seq<Chunk>>)
    requires AllFinished(final)
  {
    forall i :: 0 <= i < |final| ==> Separated(final[i])
  }

  lemma {:induction false} FlatBlock(final: seq<seq<Chunk>>)
    requires AllFinished(final)
    ensures Render(Flat(final)) == Join(Texts(final)) && Items(Flat(final)) == JoinItems(final)
    ensures Separated(Flat(final)) <==> AllSeparated(final)
  {
    hide Render, Separated, Items, Good, Finished, WithLine;
    if final == [] {
      NothingFlat();
    } else {
      var n := |final| - 1;
      var pre, line := final[..n], final[n];
      assert AllFinished(pre);
      FlatBlock(pre);
      WithLineGood(Flat(pre), line);
      WithLineText(Flat(pre), line);
      WithLineItems(Flat(pre), line);
      WithLineSeparated(Flat(pre), line);
      assert Texts(final)[..n] == Texts(pre);
      assert AllSeparated(final) <==> AllSeparated(pre) && Separated(line) by {
        assert forall i :: 0 <= i < n ==> final[i] == pre[i];
      }
    }
  }

  lemma NothingFlat()
    ensures Good([]) && Render([]) == "" && Items([]) == [] && Separated([])
  {
  }

  // --------------------------------------------------------- in terms of the statements

  /** What piece j of statement i is to say: its text, or the operand at its own position. */
  function PieceMeaning(blk: seq<seq<Piece>>, retn: nat, extra: nat, i: nat, j: nat): seq<Item>
    requires i < |blk| && j < |blk[i]|
  {
    match blk[i][j]
    case Text(t) => Chars(t)
    case Operand(pre, _) => [OperandItem(pre, retn + Position(blk, extra, i, j))]
  }

  function StmtMeaning(blk: seq<seq<Piece>>, retn: nat, extra: nat, i: nat, j: nat): seq<Item>
    requires i < |blk| && j <= |blk[i]|
    decreases |blk[i]| - j
  {
    if j == |blk[i]| then [] else PieceMeaning(blk, retn, extra, i, j) + StmtMeaning(blk, retn, extra, i, j + 1)
  }

  /** What the first n statements are to say. */
  function Meaning(blk: seq<seq<Piece>>, retn: nat, extra: nat, n: nat): seq<Item>
    requires n <= |blk|
  {
    if n == 0 then [] else AppendItems(Meaning(blk, retn, extra, n - 1), StmtMeaning(blk, retn, extra, n - 1, 0))
  }

  /** What is written from piece j on begins with a digit. */
  predicate DigitNext(ps: seq<Piece>, j: nat)
    requires j <= |ps|
    decreases |ps| - j
  {
    j < |ps| && ps[j].Text? && (if ps[j].text == "" then DigitNext(ps, j + 1) else IsDigit(ps[j].text[0]))
  }

  /** In no statement an operand is directly followed by a digit. */
  ghost predicate NoDigitBehind(blk: seq<seq<Piece>>) {
    forall i: nat, j: nat :: i < |blk| && j < |blk[i]| && blk[i][j].Operand? ==> !DigitNext(blk[i], j + 1)
  }

  /** The chunks of a statement, one per piece. */
  ghost predicate Follows(cs: seq<Chunk>, ps: seq<Piece>) {
    |cs| == |ps| && forall j: nat :: j < |ps| ==> FollowsAt(cs, ps, j)
  }

  ghost predicate FollowsAt(cs: seq<Chunk>, ps: seq<Piece>, j: nat) {
    j < |cs| && j < |ps| && match ps[j]
      case Text(t) => cs[j] == Lit(t)
      case Operand(pre, _) => cs[j].Ref? && cs[j].pre == pre
  }

  lemma {:induction false} DigitNextIs(cs: seq<Chunk>, ps: seq<Piece>, j: nat)
    requires j <= |ps| && Follows(cs, ps) && Good(cs) && Good(cs[j..])
    ensures StartsDigit(Render(cs[j..])) <==> DigitNext(ps, j)
    decreases |ps| - j
  {
    if j < |ps| {
      assert FollowsAt(cs, ps, j) && cs[j..][1..] == cs[j + 1..] && GoodChunk(cs[j]);
      DigitNextIs(cs, ps, j + 1);
    }
  }

  lemma {:induction false} SeparatedIs(cs: seq<Chunk>, ps: seq<Piece>, j: nat)
    requires j <= |ps| && Follows(cs, ps) && Good(cs) && Good(cs[j..])
    ensures Separated(cs[j..]) <==> forall k: nat :: j <= k < |ps| && ps[k].Operand? ==> !DigitNext(ps, k + 1)
    decreases |ps| - j
  {
    if j < |ps| {
      assert FollowsAt(cs, ps, j) && cs[j..][1..] == cs[j + 1..] && cs[j..][0] == cs[j];
      DigitNextIs(cs, ps, j + 1);
      SeparatedIs(cs, ps, j + 1);
    }
  }

  lemma NamedFollows(blk: seq<seq<Piece>>, final: seq<seq<Chunk>>, retn: nat,
                     operands: seq<Value>, constraints: seq<Constraint>, extra: nat, i: nat)
    requires AllNamed(blk, final, retn, operands, constraints, extra) && i < |blk|
    ensures Good(final[i]) && Finished(final[i]) && Follows(final[i], blk[i])
  {
    var cs, ps := final[i], blk[i];
    var o, n := OutsBefore(blk, i), OutsBefore(blk, |blk|) + extra + InsBefore(blk, i);
    assert NamedAt(blk, cs, retn, operands, constraints, extra, i);
    assert forall j: nat :: j < |ps| ==> Names(cs[j], ps, j, retn, operands, constraints, o, n);
    forall j: nat | j < |ps| ensures FollowsAt(cs, ps, j) && !cs[j].Hole? {
      assert Names(cs[j], ps, j, retn, operands, constraints, o, n);
    }
  }

  lemma {:induction false} StmtSays(blk: seq<seq<Piece>>, final: seq<seq<Chunk>>, retn: nat,
                                    operands: seq<Value>, constraints: seq<Constraint>, extra: nat, i: nat, j: nat)
    requires AllNamed(blk, final, retn, operands, constraints, extra) && i < |blk| && j <= |blk[i]| == |final[i]|
    requires Follows(final[i], blk[i])
    ensures Items(final[i][j..]) == StmtMeaning(blk, retn, extra, i, j)
    decreases |blk[i]| - j
  {
    NamedSize(blk, final, retn, operands, constraints, extra);
    var cs := final[i];
    if j < |blk[i]| {
      PieceSays(blk, final, retn, operands, constraints, extra, i, j);
      hide AllNamed, Follows, ItemsOf, PieceMeaning;
      StmtSays(blk, final, retn, operands, constraints, extra, i, j + 1);
      assert cs[j..][1..] == cs[j + 1..] && cs[j..][0] == cs[j];
    }
  }

  lemma PieceSays(blk: seq<seq<Piece>>, final: seq<seq<Chunk>>, retn: nat,
                  operands: seq<Value>, constraints: seq<Constraint>, extra: nat, i: nat, j: nat)
    requires AllNamed(blk, final, retn, operands, constraints, extra) && i < |blk| == |final|
    requires Follows(final[i], blk[i]) && j < |blk[i]|
    ensures ItemsOf(final[i][j]) == PieceMeaning(blk, retn, extra, i, j)
  {
    assert FollowsAt(final[i], blk[i], j);
    if blk[i][j].Operand? { NumberIsPosition(blk, final, retn, operands, constraints, extra, i, j); }
  }

  lemma {:induction false} BlockSays(blk: seq<seq<Piece>>, final: seq<seq<Chunk>>, retn: nat,
                                     operands: seq<Value>, constraints: seq<Constraint>, extra: nat, n: nat)
    requires AllNamed(blk, final, retn, operands, constraints, extra) && n <= |blk| == |final|
    ensures JoinItems(final[..n]) == Meaning(blk, retn, extra, n)
  {
    hide AllNamed, AppendItems, StmtMeaning, Items;
    if n > 0 {
      BlockSays(blk, final, retn, operands, constraints, extra, n - 1);
      assert final[..n][..n - 1] == final[..n - 1] && final[..n][n - 1] == final[n - 1];
      NamedFollows(blk, final, retn, operands, constraints, extra, n - 1);
      StmtSays(blk, final, retn, operands, constraints, extra, n - 1, 0);
      assert final[n - 1][0..] == final[n - 1];
    }
  }

  lemma BlockSeparated(blk: seq<seq<Piece>>, final: seq<seq<Chunk>>, retn: nat,
                       operands: seq<Value>, constraints: seq<Constraint>, extra: nat)
    requires AllNamed(blk, final, retn, operands, constraints, extra) && |blk| == |final| && AllFinished(final)
    ensures AllSeparated(final) <==> NoDigitBehind(blk)
  {
    hide AllNamed, DigitNext, Separated, Good, Finished;
    forall i: nat | i < |blk|
      ensures Separated(final[i]) <==> forall k: nat :: k < |blk[i]| && blk[i][k].Operand? ==> !DigitNext(blk[i], k + 1)
    {
      NamedFollows(blk, final, retn, operands, constraints, extra, i);
      assert final[i][0..] == final[i];
      SeparatedIs(final[i], blk[i], 0);
    }
  }

  lemma NamedSize(blk: seq<seq<Piece>>, final: seq<seq<Chunk>>, retn: nat,
                  operands: seq<Value>, constraints: seq<Constraint>, extra: nat)
    requires AllNamed(blk, final, retn, operands, constraints, extra)
    ensures |final| == |blk|
  {
  }

  /** The statements of a block, as LLVM is to read them. */
  lemma StatementsSay(blk: seq<seq<Piece>>, final: seq<seq<Chunk>>, retn: nat,
                      operands: seq<Value>, constraints: seq<Constraint>, extra: nat)
    requires AllNamed(blk, final, retn, operands, constraints, extra)
    ensures AllFinished(final) && JoinItems(final) == Meaning(blk, retn, extra, |blk|)
    ensures AllSeparated(final) <==> NoDigitBehind(blk)
  {
    hide AllNamed, Separated, Items, Good, Finished, Meaning, JoinItems;
    NamedSize(blk, final, retn, operands, constraints, extra);
    forall i | 0 <= i < |final| ensures Good(final[i]) && Finished(final[i]) {
      NamedFollows(blk, final, retn, operands, constraints, extra, i);
    }
    BlockSays(blk, final, retn, operands, constraints, extra, |blk|);
    assert final[..|blk|] == final;
    BlockSeparated(blk, final, retn, operands, constraints, extra);
  }

  /**
    LLVM reads the finished text of a block as its statements, with every operand at its own
    position, if and only if no operand is directly followed by a digit.
   */
  lemma BlockReadsIff(blk: seq<seq<Piece>>, retn: nat, code: string, operands: seq<Value>, constraints: seq<Constraint>)
    requires Named(blk, retn, code, operands, constraints)
    ensures ReadText(code) == Meaning(blk, retn, 0, |blk|) <==> NoDigitBehind(blk)
  {
    hide AllNamed, Separated, Items, Render, Good, Finished, Flat, Meaning, JoinItems, AllSeparated;
    var final :| AllNamed(blk, final, retn, operands, constraints, 0) && Spells(final, code);
    StatementsSay(blk, final, retn, operands, constraints, 0);
    FlatBlock(final);
    ReadsIffSeparated(Flat(final));
  }

  // ------------------------------------------------------------- blocks with a setter

  /** The setter, as LLVM is to read it. */
  function SetterMeaning(blk: seq<seq<Piece>>, labels: seq<string>, end: string): seq<Item> {
    Items(SetterFinal(labels, end, TargetPosition(blk), ConstPosition(blk)))
  }

  /** A reference is followed by a chunk whose text begins with something other than a digit. */
  ghost predicate BoundedAt(cs: seq<Chunk>, k: nat) {
    k < |cs| && cs[k].Ref? ==>
      k + 1 < |cs| && cs[k + 1].Lit? && cs[k + 1].text != "" && !IsDigit(cs[k + 1].text[0])
  }

  ghost predicate Bounded(cs: seq<Chunk>) { forall k: nat :: k < |cs| ==> BoundedAt(cs, k) }

  lemma {:induction false} BoundedSeparated(cs: seq<Chunk>)
    requires Good(cs) && Bounded(cs)
    ensures Separated(cs)
  {
    if cs != [] {
      forall k: nat | k < |cs| - 1 ensures BoundedAt(cs[1..], k) { assert BoundedAt(cs, k + 1); }
      BoundedSeparated(cs[1..]);
      assert BoundedAt(cs, 0);
    }
  }

  lemma BoundedAppend(a: seq<Chunk>, b: seq<Chunk>)
    requires Bounded(a) && Bounded(b)
    ensures Bounded(a + b)
  {
    forall k: nat | k < |a + b| ensures BoundedAt(a + b, k) {
      if k < |a| { assert BoundedAt(a, k); } else { assert BoundedAt(b, k - |a|); }
    }
  }

  lemma CaseBounded(l: string, end: string, o: nat, num: nat)
    requires PlainText(l) && PlainText(end)
    ensures var c := CaseFinal(l, end, o, num); Good(c) && Finished(c) && Bounded(c)
  {
    CaseGood(l);
    EndGood(end);
    hide GoodText, PlainText, JmpEnd;
  }

  /** In the setter every reference is followed by a comma or a line end. */
  lemma {:induction false} BodyBounded(labels: seq<string>, end: string, k: nat, o: nat, n: nat)
    requires k <= |labels| && PlainText(end) && forall j :: 0 <= j < |labels| ==> PlainText(labels[j])
    ensures var b := BodyFinal(labels, end, k, o, n); Good(b) && Finished(b) && Bounded(b)
  {
    hide GoodText, PlainText, JmpEnd, Bounded, CaseFinal;
    EndGood(end);
    if k == 0 {
      OneLit(JmpEnd(end));
    } else {
      BodyBounded(labels, end, k - 1, o, n);
      CaseBounded(labels[k - 1], end, o, n + k - 1);
      BoundedAppend(BodyFinal(labels, end, k - 1, o, n), CaseFinal(labels[k - 1], end, o, n + k - 1));
    }
  }

  lemma OneLit(t: string)
    requires GoodText(t)
    ensures var c := [Lit(t)]; Good(c) && Finished(c) && Bounded(c)
  {
  }

  lemma SetterSeparated(labels: seq<string>, end: string, o: nat, n: nat)
    requires PlainText(end) && forall j :: 0 <= j < |labels| ==> PlainText(labels[j])
    ensures var b := SetterFinal(labels, end, o, n); Good(b) && Finished(b) && Separated(b)
  {
    hide PlainText, GoodText, JmpEnd, Bounded, Separated;
    EndGood(end);
    BodyBounded(labels, end, |labels|, o, n);
    OneLit(end + ":\n");
    BoundedAppend(BodyFinal(labels, end, |labels|, o, n), [Lit(end + ":\n")]);
    BoundedSeparated(SetterFinal(labels, end, o, n));
  }

  lemma LastLine(final: seq<seq<Chunk>>, n: nat)
    requires |final| == n + 1 && AllFinished(final[..n]) && Good(final[n]) && Finished(final[n])
    ensures AllFinished(final) && JoinItems(final) == AppendItems(JoinItems(final[..n]), Items(final[n]))
    ensures AllSeparated(final) <==> AllSeparated(final[..n]) && Separated(final[n])
  {
    hide Good, Finished, Separated, Items, AppendItems;
    var pre := final[..n];
    forall i | 0 <= i < |final| ensures Good(final[i]) && Finished(final[i]) {
      if i < n { assert pre[i] == final[i]; }
    }
    assert AllSeparated(final) <==> AllSeparated(pre) && Separated(final[n]) by {
      assert forall i :: 0 <= i < n ==> final[i] == pre[i];
    }
  }

  /**
    LLVM reads the finished text of a block with a setter as its statements, every operand at its
    own position, and then the setter, if and only if no operand of a statement is directly
    followed by a digit: in the setter itself nothing is ever misread.
   */
  lemma GotoBlockReadsIff(blk: seq<seq<Piece>>, labels: seq<string>, end: string, code: string,
                          operands: seq<Value>, constraints: seq<Constraint>)
    requires CompiledWithGotos(blk, labels, end, code, operands, constraints)
    requires PlainText(end) && forall k :: 0 <= k < |labels| ==> PlainText(labels[k])
    ensures ReadText(code) == AppendItems(Meaning(blk, 0, 1, |blk|), SetterMeaning(blk, labels, end))
      <==> NoDigitBehind(blk)
  {
    hide AllNamed, Separated, Items, Render, Good, Finished, Flat, Meaning, JoinItems, AllSeparated, AllFinished,
      SetterFinal, PlainText, NoDigitBehind, AppendItems;
    var final :| NamedWithGotos(blk, labels, end, final, operands, constraints) && Spells(final, code);
    StatementsSay(blk, final[..|blk|], 0, operands, constraints, 1);
    SetterSeparated(labels, end, TargetPosition(blk), ConstPosition(blk));
    LastLine(final, |blk|);
    FlatBlock(final);
    ReadsIffSeparated(Flat(final));
  }
}

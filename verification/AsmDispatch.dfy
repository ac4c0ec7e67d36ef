/**
  The finished text of an asm block executed: lines, labels, `movl`, `jmp`.  It shows what the
  jump-target setter (ldc/gen/asmstmt.cpp) is for: whoever branches to an outer label stores
  that label's value and leaves the block at its end, whoever falls through stores nothing.
 */
module AsmDispatch {
  import opened Options
  import opened AsmText
  import opened AsmOperands
  import opened AsmBlock
  import opened AsmNumbering
  import opened AsmGotos
  import opened AsmReading

  // ----------------------------------------------------------------------------- lines

  const NL := Char('\n')

  /** The lines of a text, line ends left out. */
  function Lines(t: seq<Item>): (ls: seq<seq<Item>>)
    ensures |ls| > 0
  {
    if t == [] then [[]] else Onto(t[0], Lines(t[1..]))
  }

  /** One item in front. */
  function Onto(c: Item, ls: seq<seq<Item>>): (r: seq<seq<Item>>)
    requires |ls| > 0
    ensures |r| > 0
  {
    if c == NL then [[]] + ls else [[c] + ls[0]] + ls[1..]
  }

  lemma OntoJoined(c: Item, x: seq<seq<Item>>, y: seq<seq<Item>>)
    requires |x| > 0
    ensures Onto(c, x + y) == Onto(c, x) + y
  {
    assert (x + y)[1..] == x[1..] + y;
  }

  lemma {:induction false} LineFirst(line: seq<Item>, rest: seq<Item>)
    requires NL !in line
    ensures Lines(line + [NL] + rest) == [line] + Lines(rest)
  {
    var t := line + [NL] + rest;
    if line == [] {
      assert t[1..] == rest;
    } else {
      assert t[1..] == line[1..] + [NL] + rest && t[0] == line[0] && line[0] in line;
      LineFirst(line[1..], rest);
      assert [line[0]] + line[1..] == line;
    }
  }

  lemma {:induction false} LineLast(line: seq<Item>)
    requires NL !in line
    ensures Lines(line) == [line]
  {
    if line != [] {
      assert line[0] in line;
      LineLast(line[1..]);
      assert [line[0]] + line[1..] == line;
    }
  }

  lemma {:induction false} LinesJoined(a: seq<Item>, b: seq<Item>)
    ensures Lines(a + [NL] + b) == Lines(a) + Lines(b)
  {
    hide Onto;
    var t := a + [NL] + b;
    if a == [] {
      assert t[1..] == b && t[0] == NL;
      EmptyLine(Lines(b));
    } else {
      assert t[1..] == a[1..] + [NL] + b && t[0] == a[0];
      LinesJoined(a[1..], b);
      OntoJoined(a[0], Lines(a[1..]), Lines(b));
    }
  }

  lemma EmptyLine(ls: seq<seq<Item>>)
    requires |ls| > 0
    ensures Onto(NL, ls) == [[]] + ls
  {
  }

  // ------------------------------------------------------------------------ instructions

  /** An instruction as far as control flow into and out of the setter is concerned. */
  datatype Instr = Blank | Label(name: string) | Jump(to: string) | Move(src: nat, dst: nat) | Other

  predicate AllChars(l: seq<Item>) { forall k :: 0 <= k < |l| ==> l[k].Char? }

  function TextOf(l: seq<Item>): (t: string)
    requires AllChars(l)
    ensures |t| == |l|
  {
    seq(|l|, k requires 0 <= k < |l| => l[k].c)
  }

  function Trimmed(l: seq<Item>): seq<Item> {
    if l != [] && (l[0] == Char('\t') || l[0] == Char(' ')) then Trimmed(l[1..]) else l
  }

  function Decode(line: seq<Item>): Instr {
    var l := Trimmed(line);
    if l == [] then Blank
    else if AllChars(l) then DecodeText(TextOf(l))
    else if |l| == 9 && AllChars(l[..5]) && TextOf(l[..5]) == "movl " && IsOperand(l[5])
            && l[6] == Char(',') && l[7] == Char(' ') && IsOperand(l[8]) then Move(l[5].num, l[8].num)
    else Other
  }

  predicate IsOperand(i: Item) { i.OperandItem? && i.pre == "$" }

  function DecodeText(t: string): Instr
    requires t != ""
  {
    if t[|t| - 1] == ':' then Label(t[..|t| - 1])
    else if |t| > 4 && t[..4] == "jmp " then Jump(t[4..])
    else Other
  }

  function Program(t: seq<Item>): (prog: seq<Instr>)
    ensures |prog| == |Lines(t)|
  {
    DecodeAll(Lines(t))
  }

  function DecodeAll(ls: seq<seq<Item>>): (prog: seq<Instr>)
    ensures |prog| == |ls| && forall k :: 0 <= k < |ls| ==> prog[k] == Decode(ls[k])
  {
    seq(|ls|, k requires 0 <= k < |ls| => Decode(ls[k]))
  }

  // --------------------------------------------------------------------------- execution

  predicate Defines(prog: seq<Instr>, l: string) { Label(l) in prog }

  /** Where a label stands. */
  function Target(prog: seq<Instr>, l: string): Option<nat> {
    if prog == [] then None
    else if prog[0] == Label(l) then Some(0)
    else var t := Target(prog[1..], l); if t.None? then None else Some(1 + t.value)
  }

  datatype Moved = Moved(src: nat, dst: nat)

  /** The moves made from line pc until the end label is met; None if it is not met within n steps. */
  ghost function Run(prog: seq<Instr>, pc: nat, end: string, n: nat): Option<seq<Moved>>
    decreases n
  {
    if pc >= |prog| then None
    else if prog[pc] == Label(end) then Some([])
    else if n == 0 then None
    else match prog[pc]
      case Blank => Run(prog, pc + 1, end, n - 1)
      case Label(_) => Run(prog, pc + 1, end, n - 1)
      case Jump(l) =>
        var t := Target(prog, l);
        if t.None? then None else Run(prog, t.value, end, n - 1)
      case Move(a, b) =>
        var rest := Run(prog, pc + 1, end, n - 1);
        if rest.None? then None else Some([Moved(a, b)] + rest.value)
      case Other => None
  }

  /** From line pc the end label is reached with exactly these moves. */
  ghost predicate Ends(prog: seq<Instr>, pc: nat, end: string, moves: seq<Moved>) {
    exists n: nat :: Run(prog, pc, end, n) == Some(moves)
  }

  lemma {:induction false} RunMore(prog: seq<Instr>, pc: nat, end: string, n: nat, m: nat)
    requires Run(prog, pc, end, n).Some? && n <= m
    ensures Run(prog, pc, end, m) == Run(prog, pc, end, n)
    decreases n
  {
    if prog[pc] != Label(end) {
      match prog[pc]
      case Jump(l) => RunMore(prog, Target(prog, l).value, end, n - 1, m - 1);
      case Blank => RunMore(prog, pc + 1, end, n - 1, m - 1);
      case Label(_) => RunMore(prog, pc + 1, end, n - 1, m - 1);
      case Move(_, _) => RunMore(prog, pc + 1, end, n - 1, m - 1);
      case Other =>
    }
  }

  /** There is only one way to go. */
  lemma EndsOnce(prog: seq<Instr>, pc: nat, end: string, a: seq<Moved>, b: seq<Moved>)
    requires Ends(prog, pc, end, a) && Ends(prog, pc, end, b)
    ensures a == b
  {
    var n: nat :| Run(prog, pc, end, n) == Some(a);
    var m: nat :| Run(prog, pc, end, m) == Some(b);
    RunMore(prog, pc, end, n, n + m);
    RunMore(prog, pc, end, m, n + m);
  }

  lemma {:induction false} TargetIs(prog: seq<Instr>, l: string, k: nat)
    requires k < |prog| && prog[k] == Label(l) && forall j :: 0 <= j < k ==> prog[j] != Label(l)
    ensures Target(prog, l) == Some(k)
  {
    if k > 0 { TargetIs(prog[1..], l, k - 1); }
  }

  // --------------------------------------------------------------- the lines of a setter

  /** A label as an assembler accepts it on a line of its own. */
  predicate LabelName(l: string) {
    l != "" && '\n' !in l && l[0] != ' ' && l[0] != '\t' && l[|l| - 1] != ':'
  }

  lemma CharsAppend(a: string, b: string)
    ensures Chars(a + b) == Chars(a) + Chars(b)
  {
  }

  function JumpLine(end: string): seq<Item> { Chars("\tjmp " + end) }

  function MoveLine(src: nat, dst: nat): seq<Item> {
    Chars("\tmovl ") + [OperandItem("$", src)] + Chars(", ") + [OperandItem("$", dst)]
  }

  function CaseLines(l: string, end: string, o: nat, num: nat): seq<seq<Item>> {
    [Chars(l + ":"), MoveLine(num, o), [], JumpLine(end)]
  }

  function BodyLines(labels: seq<string>, end: string, k: nat, o: nat, n: nat): (ls: seq<seq<Item>>)
    requires k <= |labels|
    ensures |ls| == 2 + 4 * k
  {
    if k == 0 then [[], JumpLine(end)]
    else BodyLines(labels, end, k - 1, o, n) + CaseLines(labels[k - 1], end, o, n + k - 1)
  }

  lemma JumpLines(end: string, x: seq<Item>)
    requires '\n' !in end
    ensures Lines(Chars(JmpEnd(end)) + x) == [[], JumpLine(end)] + Lines(x)
  {
    var j := JumpLine(end);
    CharsAppend("\n", "\tjmp " + end + "\n");
    CharsAppend("\tjmp " + end, "\n");
    assert JmpEnd(end) == "\n" + ("\tjmp " + end + "\n");
    assert Chars("\n") == [NL];
    assert Chars(JmpEnd(end)) + x == [] + [NL] + (j + [NL] + x);
    assert NL !in j;
    LineFirst([], j + [NL] + x);
    LineFirst(j, x);
  }

  lemma CaseLinesAre(l: string, end: string, o: nat, num: nat, x: seq<Item>)
    requires '\n' !in l && '\n' !in end
    ensures Lines(Items(CaseFinal(l, end, o, num)) + x) == CaseLines(l, end, o, num) + Lines(x)
  {
    hide Items, JmpEnd, CaseFinal, Lines;
    CaseItems(l, end, o, num);
    var j := Chars(JmpEnd(end)) + x;
    var first, move := Chars(l + ":"), MoveLine(num, o);
    assert Items(CaseFinal(l, end, o, num)) + x == first + [NL] + (move + [NL] + j);
    assert NL !in first && NL !in move;
    LineFirst(first, move + [NL] + j);
    LineFirst(move, j);
    JumpLines(end, x);
  }

  lemma CaseItems(l: string, end: string, o: nat, num: nat)
    ensures Items(CaseFinal(l, end, o, num)) ==
      Chars(l + ":") + [NL] + (MoveLine(num, o) + [NL] + Chars(JmpEnd(end)))
  {
    hide Items, JmpEnd, Chars;
    ItemsFive(CaseFinal(l, end, o, num));
    LabelChars(l);
    LineEndChars(JmpEnd(end));
    var a, b, m, j := Chars(l + ":"), Chars("\tmovl "), Chars(", "), Chars(JmpEnd(end));
    var x, y := [OperandItem("$", num)], [OperandItem("$", o)];
    Regrouped5(a, b, x, m, y, j);
  }

  lemma LabelChars(l: string)
    ensures Chars(l + ":\n\tmovl ") == Chars(l + ":") + [NL] + Chars("\tmovl ")
  {
    assert l + ":" + ("\n" + "\tmovl ") == l + ":\n\tmovl ";
  }

  lemma LineEndChars(t: string)
    ensures Chars("\n" + t) == [NL] + Chars(t)
  {
  }

  lemma Regrouped5(a: seq<Item>, b: seq<Item>, x: seq<Item>, m: seq<Item>, y: seq<Item>, j: seq<Item>)
    ensures a + [NL] + b + (x + (m + (y + ([NL] + j)))) == a + [NL] + (b + x + m + y + [NL] + j)
  {
  }

  lemma ItemsFive(c: seq<Chunk>)
    requires |c| == 5
    ensures Items(c) == ItemsOf(c[0]) + (ItemsOf(c[1]) + (ItemsOf(c[2]) + (ItemsOf(c[3]) + ItemsOf(c[4]))))
  {
    hide ItemsOf;
    assert c[1..][1..] == c[2..] && c[2..][1..] == c[3..] && c[3..][1..] == c[4..] && c[4..][1..] == [];
    assert Items(c[4..]) == ItemsOf(c[4]) + [] == ItemsOf(c[4]);
    assert Items(c[3..]) == ItemsOf(c[3]) + Items(c[4..]);
    assert Items(c[2..]) == ItemsOf(c[2]) + Items(c[3..]);
    assert Items(c[1..]) == ItemsOf(c[1]) + Items(c[2..]);
  }

  lemma OneItem(t: string)
    ensures Items([Lit(t)]) == Chars(t)
  {
    var c := [Lit(t)];
    assert c[1..] == [] && Items(c) == Chars(t) + Items(c[1..]);
  }

  lemma {:induction false} BodyLinesAre(labels: seq<string>, end: string, k: nat, o: nat, n: nat, x: seq<Item>)
    requires k <= |labels| && '\n' !in end && forall j :: 0 <= j < |labels| ==> '\n' !in labels[j]
    ensures Lines(Items(BodyFinal(labels, end, k, o, n)) + x) == BodyLines(labels, end, k, o, n) + Lines(x)
  {
    hide Items, JmpEnd, CaseFinal, CaseLines, Lines;
    if k == 0 {
      OneItem(JmpEnd(end));
      JumpLines(end, x);
    } else {
      var a, c := BodyFinal(labels, end, k - 1, o, n), CaseFinal(labels[k - 1], end, o, n + k - 1);
      ItemsAppend(a, c);
      assert Items(a) + Items(c) + x == Items(a) + (Items(c) + x);
      BodyLinesAre(labels, end, k - 1, o, n, Items(c) + x);
      CaseLinesAre(labels[k - 1], end, o, n + k - 1, x);
      var b, cl, r := BodyLines(labels, end, k - 1, o, n), CaseLines(labels[k - 1], end, o, n + k - 1), Lines(x);
      assert b + (cl + r) == b + cl + r;
    }
  }

  function SetterLines(labels: seq<string>, end: string, o: nat, n: nat): (ls: seq<seq<Item>>)
    ensures |ls| == 4 * |labels| + 4
  {
    BodyLines(labels, end, |labels|, o, n) + [Chars(end + ":"), []]
  }

  lemma SetterLinesAre(labels: seq<string>, end: string, o: nat, n: nat)
    requires '\n' !in end && forall j :: 0 <= j < |labels| ==> '\n' !in labels[j]
    ensures Lines(Items(SetterFinal(labels, end, o, n))) ==
      SetterLines(labels, end, o, n)
  {
    var a, last := BodyFinal(labels, end, |labels|, o, n), Chars(end + ":");
    ItemsAppend(a, [Lit(end + ":\n")]);
    OneItem(end + ":\n");
    CharsAppend(end + ":", "\n");
    assert end + ":" + "\n" == end + ":\n" && Chars("\n") == [NL];
    hide Items, BodyLines;
    BodyLinesAre(labels, end, |labels|, o, n, last + [NL]);
    assert NL !in last;
    assert last + [NL] + [] == last + [NL];
    LineFirst(last, []);
  }

  // ----------------------------------------------------------------- what the lines mean

  lemma {:induction false} TrimPlain(l: seq<Item>)
    requires l == [] || (l[0] != Char('\t') && l[0] != Char(' '))
    ensures Trimmed(l) == l
  {
  }

  lemma TextOfChars(t: string)
    ensures AllChars(Chars(t)) && TextOf(Chars(t)) == t
  {
  }

  lemma DecodeLabel(l: string)
    requires LabelName(l)
    ensures Decode(Chars(l + ":")) == Label(l)
  {
    TrimPlain(Chars(l + ":"));
    TextOfChars(l + ":");
    assert (l + ":")[..|l|] == l;
  }

  lemma DecodeJump(end: string)
    requires LabelName(end)
    ensures Decode(JumpLine(end)) == Jump(end)
  {
    hide TextOf;
    var t := "jmp " + end;
    CharsAppend("\t", t);
    assert "\t" + t == "\tjmp " + end;
    assert JumpLine(end)[0] == Char('\t') && JumpLine(end)[1..] == Chars(t);
    TrimPlain(Chars(t));
    TrimTab(JumpLine(end));
    TextOfChars(t);
    JumpText(end);
  }

  lemma TrimTab(l: seq<Item>)
    requires l != [] && l[0] == Char('\t')
    ensures Trimmed(l) == Trimmed(l[1..])
  {
  }

  lemma JumpText(end: string)
    requires LabelName(end)
    ensures DecodeText("jmp " + end) == Jump(end)
  {
    var t := "jmp " + end;
    assert t[..4] == "jmp " && t[4..] == end && t[|t| - 1] == end[|end| - 1];
  }

  lemma DecodeMove(src: nat, dst: nat)
    ensures Decode(MoveLine(src, dst)) == Move(src, dst)
  {
    CharsAppend("\t", "movl ");
    assert "\t" + "movl " == "\tmovl ";
    var l := Chars("movl ") + [OperandItem("$", src)] + Chars(", ") + [OperandItem("$", dst)];
    assert MoveLine(src, dst)[0] == Char('\t') && MoveLine(src, dst)[1..] == l;
    TrimPlain(l);
    assert l[..5] == Chars("movl ") && !l[5].Char?;
    TextOfChars("movl ");
  }

  lemma DecodeBlank()
    ensures Decode([]) == Blank && Decode([Char('\t')]) == Blank
  {
    assert [Char('\t')][1..] == [];
  }

  /** The instructions of a setter that begins at line top. */
  ghost predicate SetterAt(prog: seq<Instr>, top: nat, labels: seq<string>, end: string, o: nat, n: nat) {
    && top + 4 * |labels| + 2 < |prog|
    && prog[top] == Blank && prog[top + 1] == Jump(end)
    && prog[top + 4 * |labels| + 2] == Label(end)
    && forall g: nat :: g < |labels| ==> CaseAt(prog, top + 4 * g + 2, labels[g], end, o, n + g)
  }

  ghost predicate CaseAt(prog: seq<Instr>, at: nat, l: string, end: string, o: nat, num: nat) {
    at + 3 < |prog| && prog[at..at + 4] == [Label(l), Move(num, o), Blank, Jump(end)]
  }

  lemma {:induction false} BodyLineAt(labels: seq<string>, end: string, k: nat, o: nat, n: nat, g: nat)
    requires g < k <= |labels|
    ensures BodyLines(labels, end, k, o, n)[4 * g + 2..4 * g + 6] == CaseLines(labels[g], end, o, n + g)
  {
    var b := BodyLines(labels, end, k - 1, o, n);
    var all := BodyLines(labels, end, k, o, n);
    if g < k - 1 {
      BodyLineAt(labels, end, k - 1, o, n, g);
      assert all[4 * g + 2..4 * g + 6] == b[4 * g + 2..4 * g + 6];
    } else {
      assert |b| == 4 * g + 2;
    }
  }

  lemma {:induction false} BodyFirst(labels: seq<string>, end: string, k: nat, o: nat, n: nat)
    requires k <= |labels|
    ensures BodyLines(labels, end, k, o, n)[..2] == [[], JumpLine(end)]
  {
    if k > 0 { BodyFirst(labels, end, k - 1, o, n); }
  }

  lemma CaseDecoded(l: string, end: string, o: nat, num: nat)
    requires LabelName(l) && LabelName(end)
    ensures DecodeAll(CaseLines(l, end, o, num)) == [Label(l), Move(num, o), Blank, Jump(end)]
  {
    hide Decode;
    DecodeLabel(l);
    DecodeJump(end);
    DecodeMove(num, o);
    DecodeBlank();
  }

  lemma SetterLineFacts(labels: seq<string>, end: string, o: nat, n: nat)
    ensures var ls := SetterLines(labels, end, o, n);
      ls[1] == JumpLine(end) && ls[4 * |labels| + 2] == Chars(end + ":")
      && forall g: nat :: g < |labels| ==> SetterLines(labels, end, o, n)[4 * g + 2..4 * g + 6] == CaseLines(labels[g], end, o, n + g)
  {
    var b, ls := BodyLines(labels, end, |labels|, o, n), SetterLines(labels, end, o, n);
    BodyFirst(labels, end, |labels|, o, n);
    assert ls[1] == b[..2][1];
    forall g: nat | g < |labels| ensures ls[4 * g + 2..4 * g + 6] == CaseLines(labels[g], end, o, n + g) {
      BodyLineAt(labels, end, |labels|, o, n, g);
      assert ls[4 * g + 2..4 * g + 6] == b[4 * g + 2..4 * g + 6];
    }
  }

  lemma InProgram(pre: seq<Instr>, ls: seq<seq<Item>>, k: nat)
    requires k < |ls|
    ensures |pre + DecodeAll(ls)| == |pre| + |ls| && (pre + DecodeAll(ls))[|pre| + k] == Decode(ls[k])
  {
    hide Decode;
  }

  /** The setter behind other instructions, with anything blank in place of its first, empty line. */
  lemma SetterDecoded(labels: seq<string>, end: string, o: nat, n: nat, pre: seq<Instr>, first: seq<Item>)
    requires LabelName(end) && (forall g :: 0 <= g < |labels| ==> LabelName(labels[g])) && Decode(first) == Blank
    ensures SetterAt(pre + DecodeAll(SetterLines(labels, end, o, n)[0 := first]), |pre|, labels, end, o, n)
  {
    hide Decode, DecodeAll, LabelName, SetterLines, JumpLine, CaseLines, Chars, CaseAt;
    var was := SetterLines(labels, end, o, n);
    var ls := was[0 := first];
    var count := |labels|;
    SetterLineFacts(labels, end, o, n);
    DecodeLabel(end);
    DecodeJump(end);
    InProgram(pre, ls, 0);
    InProgram(pre, ls, 1);
    InProgram(pre, ls, 4 * count + 2);
    forall g: nat | g < |labels| ensures CaseAt(pre + DecodeAll(ls), |pre| + 4 * g + 2, labels[g], end, o, n + g) {
      SameSlice(was, first, 4 * g + 2);
      CaseInProgram(labels[g], end, o, n + g, pre, ls, 4 * g + 2);
    }
  }

  lemma SameSlice(was: seq<seq<Item>>, first: seq<Item>, at: nat)
    requires 0 < at && at + 4 <= |was|
    ensures was[0 := first][at..at + 4] == was[at..at + 4]
  {
  }

  lemma CaseInProgram(l: string, end: string, o: nat, num: nat, pre: seq<Instr>, ls: seq<seq<Item>>, at: nat)
    requires LabelName(l) && LabelName(end) && at + 4 <= |ls| && ls[at..at + 4] == CaseLines(l, end, o, num)
    ensures CaseAt(pre + DecodeAll(ls), |pre| + at, l, end, o, num)
  {
    CaseDecoded(l, end, o, num);
    CaseSlice(pre, ls, at, CaseLines(l, end, o, num));
  }

  lemma CaseSlice(pre: seq<Instr>, ls: seq<seq<Item>>, at: nat, c: seq<seq<Item>>)
    requires at + 4 <= |ls| && ls[at..at + 4] == c && |c| == 4
    ensures (pre + DecodeAll(ls))[|pre| + at..|pre| + at + 4] == DecodeAll(c)
  {
    hide Decode;
    var prog := pre + DecodeAll(ls);
    forall j | 0 <= j < 4 ensures prog[|pre| + at + j] == DecodeAll(c)[j] {
      assert ls[at..at + 4][j] == ls[at + j];
    }
  }

  // ------------------------------------------------------------------------ forwarding

  /** No instruction before the setter is one of its labels, and its labels differ. */
  ghost predicate LabelsApart(before: seq<Instr>, labels: seq<string>, end: string) {
    && !Defines(before, end) && end !in labels
    && (forall g :: 0 <= g < |labels| ==> !Defines(before, labels[g]))
    && (forall g, h :: 0 <= g < h < |labels| ==> labels[g] != labels[h])
  }

  /** What is meant by forwarding: fall through without a store; at a label store its constant, once. */
  ghost predicate Forwards(prog: seq<Instr>, top: nat, labels: seq<string>, end: string, o: nat, n: nat) {
    && Ends(prog, top, end, [])
    && forall g: nat :: g < |labels| ==> ForwardsCase(prog, labels[g], end, o, n + g)
  }

  ghost predicate ForwardsCase(prog: seq<Instr>, l: string, end: string, o: nat, num: nat) {
    Target(prog, l).Some? && Ends(prog, Target(prog, l).value, end, [Moved(num, o)])
  }

  lemma SetterLabelAt(prog: seq<Instr>, top: nat, labels: seq<string>, end: string, o: nat, n: nat, j: nat)
    requires SetterAt(prog, top, labels, end, o, n) && top <= j < top + 4 * |labels| + 2 && prog[j].Label?
    ensures exists g: nat :: g < |labels| && j == top + 4 * g + 2 && prog[j] == Label(labels[g])
  {
    if j > top + 1 {
      var g, d := (j - top - 2) / 4, (j - top - 2) % 4;
      assert j == top + 4 * g + 2 + d && g < |labels|;
      assert CaseAt(prog, top + 4 * g + 2, labels[g], end, o, n + g);
      assert prog[j] == prog[top + 4 * g + 2..top + 4 * g + 6][d];
    }
  }

  lemma EndTarget(prog: seq<Instr>, top: nat, labels: seq<string>, end: string, o: nat, n: nat)
    requires SetterAt(prog, top, labels, end, o, n) && LabelsApart(prog[..top], labels, end)
    ensures Target(prog, end) == Some(top + 4 * |labels| + 2)
  {
    forall j | 0 <= j < top + 4 * |labels| + 2 ensures prog[j] != Label(end) {
      if j < top {
        assert prog[j] == prog[..top][j];
      } else if prog[j].Label? {
        SetterLabelAt(prog, top, labels, end, o, n, j);
      }
    }
    TargetIs(prog, end, top + 4 * |labels| + 2);
  }

  lemma CaseTarget(prog: seq<Instr>, top: nat, labels: seq<string>, end: string, o: nat, n: nat, g: nat)
    requires SetterAt(prog, top, labels, end, o, n) && LabelsApart(prog[..top], labels, end) && g < |labels|
    ensures Target(prog, labels[g]) == Some(top + 4 * g + 2)
  {
    var at := top + 4 * g + 2;
    assert CaseAt(prog, at, labels[g], end, o, n + g);
    assert prog[at] == prog[at..at + 4][0];
    forall j | 0 <= j < at ensures prog[j] != Label(labels[g]) {
      if j < top {
        assert prog[j] == prog[..top][j];
      } else if prog[j].Label? {
        SetterLabelAt(prog, top, labels, end, o, n, j);
      }
    }
    TargetIs(prog, labels[g], at);
  }

  lemma SetterForwards(prog: seq<Instr>, top: nat, labels: seq<string>, end: string, o: nat, n: nat)
    requires SetterAt(prog, top, labels, end, o, n) && LabelsApart(prog[..top], labels, end)
    ensures Forwards(prog, top, labels, end, o, n)
  {
    EndTarget(prog, top, labels, end, o, n);
    var e := top + 4 * |labels| + 2;
    FromJump(prog, top + 1, end, e);
    StepOver(prog, top, end, 1, []);
    hide Run, Target;
    forall g: nat | g < |labels| ensures ForwardsCase(prog, labels[g], end, o, n + g) {
      CaseTarget(prog, top, labels, end, o, n, g);
      CaseForwards(prog, top + 4 * g + 2, labels[g], end, o, n + g, e) by {
        assert CaseAt(prog, top + 4 * g + 2, labels[g], end, o, n + g);
      }
    }
  }

  lemma FromJump(prog: seq<Instr>, pc: nat, end: string, e: nat)
    requires pc < |prog| && prog[pc] == Jump(end) && e < |prog| && prog[e] == Label(end) && Target(prog, end) == Some(e)
    ensures Run(prog, pc, end, 1) == Some([])
  {
    assert Run(prog, e, end, 0) == Some([]);
  }

  lemma StepOver(prog: seq<Instr>, pc: nat, end: string, n: nat, moves: seq<Moved>)
    requires pc < |prog| && (prog[pc].Blank? || (prog[pc].Label? && prog[pc].name != end))
    requires Run(prog, pc + 1, end, n) == Some(moves)
    ensures Run(prog, pc, end, n + 1) == Some(moves)
  {
  }

  lemma StepMove(prog: seq<Instr>, pc: nat, end: string, n: nat, moves: seq<Moved>)
    requires pc < |prog| && prog[pc].Move? && Run(prog, pc + 1, end, n) == Some(moves)
    ensures Run(prog, pc, end, n + 1) == Some([Moved(prog[pc].src, prog[pc].dst)] + moves)
  {
  }

  lemma CaseForwards(prog: seq<Instr>, at: nat, l: string, end: string, o: nat, num: nat, e: nat)
    requires CaseAt(prog, at, l, end, o, num) && l != end
    requires e < |prog| && prog[e] == Label(end) && Target(prog, end) == Some(e)
    ensures Ends(prog, at, end, [Moved(num, o)])
  {
    hide Run, Target;
    var c := prog[at..at + 4];
    assert prog[at] == c[0] && prog[at + 1] == c[1] && prog[at + 2] == c[2] && prog[at + 3] == c[3];
    FromJump(prog, at + 3, end, e);
    StepOver(prog, at + 2, end, 1, []);
    StepMove(prog, at + 1, end, 2, []);
    assert [Moved(num, o)] + [] == [Moved(num, o)];
    StepOver(prog, at, end, 3, [Moved(num, o)]);
  }

  // ------------------------------------------------------------------- the whole block

  datatype ReadMode = InText | InModifier | InNumber

  function Step(m: ReadMode, c: char): ReadMode {
    if m.InModifier? then (if IsDigit(c) then InNumber else InModifier)
    else if m.InNumber? && IsDigit(c) then InNumber
    else if c == '$' then InModifier
    else InText
  }

  function ModeAfter(s: string, m: ReadMode): ReadMode {
    if s == "" then m else ModeAfter(s[1..], Step(m, s[0]))
  }

  lemma {:induction false} ModeAppend(a: string, b: string, m: ReadMode)
    ensures ModeAfter(a + b, m) == ModeAfter(b, ModeAfter(a, m))
  {
    if a == "" {
      assert a + b == b;
    } else {
      assert (a + b)[1..] == a[1..] + b;
      ModeAppend(a[1..], b, Step(m, a[0]));
    }
  }

  /** What is read of a text that does not end within a reference, whatever but a digit follows. */
  lemma {:induction false} ReadTextThen(s: string, rest: string)
    requires !ModeAfter(s, InText).InModifier? && !StartsDigit(rest)
    ensures ReadText(s + rest) == ReadText(s) + ReadText(rest)
    decreases |s|, 0
  {
    if s == "" {
      assert s + rest == rest;
    } else {
      assert (s + rest)[1..] == s[1..] + rest;
      if s[0] == '$' { ReadModifierThen(s[1..], "$", rest); } else { ReadTextThen(s[1..], rest); }
    }
  }

  lemma {:induction false} ReadModifierThen(s: string, pre: string, rest: string)
    requires !ModeAfter(s, InModifier).InModifier? && !StartsDigit(rest)
    ensures ReadModifier(s + rest, pre) == ReadModifier(s, pre) + ReadText(rest)
    decreases |s|, 1
  {
    assert s != "";
    assert (s + rest)[1..] == s[1..] + rest;
    if IsDigit(s[0]) {
      ReadNumberThen(s[1..], pre, DigitVal(s[0]), rest);
    } else {
      ReadModifierThen(s[1..], pre + [s[0]], rest);
    }
  }

  lemma {:induction false} ReadNumberThen(s: string, pre: string, n: nat, rest: string)
    requires !ModeAfter(s, InNumber).InModifier? && !StartsDigit(rest)
    ensures ReadNumber(s + rest, pre, n) == ReadNumber(s, pre, n) + ReadText(rest)
    decreases |s|, 1
  {
    if s != "" && IsDigit(s[0]) {
      assert (s + rest)[1..] == s[1..] + rest;
      ReadNumberThen(s[1..], pre, 10 * n + DigitVal(s[0]), rest);
    } else {
      NumberMode(s);
      ReadTextThen(s, rest);
      assert s == "" ==> s + rest == rest;
    }
  }

  /** Behind a number, what is no digit is read as text. */
  lemma NumberMode(s: string)
    requires s == "" || !IsDigit(s[0])
    ensures s != "" ==> ModeAfter(s, InNumber) == ModeAfter(s, InText)
  {
  }

  lemma {:induction false} LitMode(t: string, m: ReadMode)
    requires '$' !in t && !m.InModifier?
    ensures !ModeAfter(t, m).InModifier?
  {
    if t != "" {
      assert t[0] in t;
      LitMode(t[1..], Step(m, t[0]));
    }
  }

  lemma {:induction false} PrefixMode(x: string)
    requires forall k :: 0 <= k < |x| ==> !IsDigit(x[k])
    ensures ModeAfter(x, InModifier) == InModifier
  {
    if x != "" { PrefixMode(x[1..]); }
  }

  lemma {:induction false} DigitsMode(d: string, m: ReadMode)
    requires d != "" && !m.InText? && forall k :: 0 <= k < |d| ==> IsDigit(d[k])
    ensures ModeAfter(d, m) == InNumber
  {
    if |d| > 1 { DigitsMode(d[1..], InNumber); } else { assert d[1..] == ""; }
  }

  /** A finished text does not end within a reference. */
  lemma {:induction false} FinishedMode(cs: seq<Chunk>, m: ReadMode)
    requires Good(cs) && Finished(cs) && !m.InModifier?
    ensures !ModeAfter(Render(cs), m).InModifier?
  {
    if cs != [] {
      var c, rest := cs[0], Render(cs[1..]);
      assert GoodChunk(c);
      ModeAppend(RenderChunk(c), rest, m);
      match c {
        case Lit(t) => LitMode(t, m);
        case Ref(pre, n) =>
          PrefixMode(pre[1..]);
          DigitsMode(Decimal(n), InModifier);
          ModeAppend(pre, Decimal(n), m);
      }
      FinishedMode(cs[1..], ModeAfter(RenderChunk(c), m));
    }
  }

  lemma {:induction false} JoinMode(final: seq<seq<Chunk>>)
    requires forall i :: 0 <= i < |final| ==> Good(final[i]) && Finished(final[i])
    ensures !ModeAfter(Join(Texts(final)), InText).InModifier?
  {
    hide Render, ModeAfter, Good, Finished;
    NothingRead();
    if final != [] {
      var n := |final| - 1;
      JoinMode(final[..n]);
      assert Texts(final)[..n] == Texts(final[..n]) && Texts(final)[n] == Render(final[n]);
      LineMode(Join(Texts(final[..n])), final[n]);
    }
  }

  lemma NothingRead()
    ensures ModeAfter("", InText) == InText
  {
  }

  lemma LineMode(code: string, line: seq<Chunk>)
    requires !ModeAfter(code, InText).InModifier? && Good(line) && Finished(line)
    ensures !ModeAfter(AppendLine(code, Render(line)), InText).InModifier?
  {
    hide Render, ModeAfter, Good, Finished;
    if code == "" {
      FinishedMode(line, InText);
      assert "" + Render(line) == Render(line);
    } else {
      ModeAppend(code, NewLine, InText);
      LitMode(NewLine, ModeAfter(code, InText));
      ModeAppend(code + NewLine, Render(line), InText);
      FinishedMode(line, ModeAfter(code + NewLine, InText));
    }
  }

  /** The text of the block's own statements, in front of a setter. */
  ghost predicate StatementText(blk: seq<seq<Piece>>, before: string, operands: seq<Value>, constraints: seq<Constraint>) {
    exists final :: AllNamed(blk, final, 0, operands, constraints, 1) && Spells(final, before)
  }

  /** Whatever the statements are, a setter behind them is read as it is written. */
  lemma SetterRead(before: string, setter: seq<Chunk>)
    requires !ModeAfter(before, InText).InModifier? && Good(setter) && Finished(setter) && Separated(setter)
    ensures ReadText(AppendLine(before, Render(setter))) ==
      (if before == "" then [] else ReadText(before) + Chars(NewLine)) + Items(setter)
  {
    hide ReadText, ModeAfter, Items, Good, Finished, Separated;
    ReadsIffSeparated(setter);
    var line := Render(setter);
    hide Render;
    if before != "" {
      ReadTextThen(before, NewLine + line);
      ReadLit(NewLine, line);
      assert before + NewLine + line == before + (NewLine + line);
    } else {
      assert [] + Items(setter) == Items(setter) && "" + line == line;
    }
  }

  lemma CodeWithSetter(blk: seq<seq<Piece>>, labels: seq<string>, end: string, code: string,
                       operands: seq<Value>, constraints: seq<Constraint>) returns (before: string)
    requires CompiledWithGotos(blk, labels, end, code, operands, constraints)
    requires PlainText(end) && forall g :: 0 <= g < |labels| ==> PlainText(labels[g])
    ensures StatementText(blk, before, operands, constraints) && SetterOperands(blk, |labels|, operands, constraints)
    ensures ReadText(code) ==
      (if before == "" then [] else ReadText(before) + Chars(NewLine)) + SetterMeaning(blk, labels, end)
  {
    hide AllNamed, Separated, Items, Good, Finished, SetterFinal, PlainText, SetterOperands, ReadText, Render;
    var final :| NamedWithGotos(blk, labels, end, final, operands, constraints) && Spells(final, code);
    var n := |blk|;
    var stmts := final[..n];
    before := Join(Texts(stmts));
    assert Spells(stmts, before);
    forall i | 0 <= i < n ensures Good(stmts[i]) && Finished(stmts[i]) {
      NamedFollows(blk, stmts, 0, operands, constraints, 1, i);
    }
    JoinMode(stmts);
    assert Texts(final)[..n] == Texts(stmts);
    SetterSeparated(labels, end, TargetPosition(blk), ConstPosition(blk));
    SetterRead(before, final[n]);
  }

  /** The program of a block with a setter: the statements' instructions, then the setter's. */
  lemma ProgramWithSetter(before: string, labels: seq<string>, end: string, o: nat, n: nat, t: seq<Item>)
    requires LabelName(end) && forall g :: 0 <= g < |labels| ==> LabelName(labels[g])
    requires t == (if before == "" then [] else ReadText(before) + Chars(NewLine)) + Items(SetterFinal(labels, end, o, n))
    ensures var pre := Statements(before);
      |pre| <= |Program(t)| && Program(t)[..|pre|] == pre && SetterAt(Program(t), |pre|, labels, end, o, n)
  {
    var ls, tab := SetterLines(labels, end, o, n), [Char('\t')];
    DecodeBlank();
    SetterFirst(labels, end, o, n);
    hide Decode, SetterLines, SetterAt, LabelName;
    if before == "" {
      SetterDecoded(labels, end, o, n, [], []);
      SetterAlone(labels, end, o, n, t);
    } else {
      SetterDecoded(labels, end, o, n, Statements(before), tab);
      SetterBehindText(before, labels, end, o, n, t);
      var pre, x := Statements(before), DecodeAll(ls[0 := tab]);
      assert (pre + x)[..|pre|] == pre;
    }
  }

  lemma SetterAlone(labels: seq<string>, end: string, o: nat, n: nat, t: seq<Item>)
    requires LabelName(end) && forall g :: 0 <= g < |labels| ==> LabelName(labels[g])
    requires t == [] + Items(SetterFinal(labels, end, o, n))
    ensures Program(t) == [] + DecodeAll(SetterLines(labels, end, o, n)[0 := []])
  {
    SetterLinesAre(labels, end, o, n);
    SetterFirst(labels, end, o, n);
    hide Items, SetterFinal, Decode, SetterLines, Lines;
    var ls := SetterLines(labels, end, o, n);
    assert t == Items(SetterFinal(labels, end, o, n)) && ls[0 := []] == ls;
  }

  lemma SetterBehindText(before: string, labels: seq<string>, end: string, o: nat, n: nat, t: seq<Item>)
    requires LabelName(end) && (forall g :: 0 <= g < |labels| ==> LabelName(labels[g])) && before != ""
    requires t == ReadText(before) + Chars(NewLine) + Items(SetterFinal(labels, end, o, n))
    ensures Program(t) == Statements(before) + DecodeAll(SetterLines(labels, end, o, n)[0 := [Char('\t')]])
  {
    var setter, ls, tab := Items(SetterFinal(labels, end, o, n)), SetterLines(labels, end, o, n), [Char('\t')];
    assert t == ReadText(before) + [NL] + (tab + setter);
    SetterLinesAre(labels, end, o, n);
    SetterFirst(labels, end, o, n);
    hide Items, SetterFinal, Decode, SetterLines, Lines, ReadText, DecodeAll;
    LinesJoined(ReadText(before), tab + setter);
    TabFirst(setter);
    assert tab + [] == tab;
    DecodeBoth(Lines(ReadText(before)), ls[0 := tab]);
  }

  function Statements(before: string): seq<Instr> {
    if before == "" then [] else Program(ReadText(before))
  }

  lemma SetterFirst(labels: seq<string>, end: string, o: nat, n: nat)
    ensures SetterLines(labels, end, o, n)[0] == []
  {
    BodyFirst(labels, end, |labels|, o, n);
    assert BodyLines(labels, end, |labels|, o, n)[..2][0] == [];
  }

  /** A tab in front goes to the first line. */
  lemma TabFirst(t: seq<Item>)
    ensures Lines([Char('\t')] + t) == Lines(t)[0 := [Char('\t')] + Lines(t)[0]]
  {
    assert ([Char('\t')] + t)[1..] == t;
  }

  lemma DecodeBoth(a: seq<seq<Item>>, b: seq<seq<Item>>)
    ensures DecodeAll(a + b) == DecodeAll(a) + DecodeAll(b)
  {
  }

  /**
    The finished text of a block with branches, run as LLVM reads it, forwards: control that falls
    off the statements reaches the end label without a store; a branch to the label number g
    moves that label's constant into the jump target, once, and reaches the end label.
   */
  lemma BlockForwards(blk: seq<seq<Piece>>, labels: seq<string>, end: string, code: string,
                      operands: seq<Value>, constraints: seq<Constraint>) returns (before: string)
    requires CompiledWithGotos(blk, labels, end, code, operands, constraints)
    requires PlainText(end) && forall g :: 0 <= g < |labels| ==> PlainText(labels[g])
    requires LabelName(end) && forall g :: 0 <= g < |labels| ==> LabelName(labels[g])
    ensures StatementText(blk, before, operands, constraints)
    ensures var prog, pre := Program(ReadText(code)), Statements(before);
      |pre| <= |prog| && prog[..|pre|] == pre
      && (LabelsApart(pre, labels, end) ==> Forwards(prog, |pre|, labels, end, TargetPosition(blk), ConstPosition(blk)))
    ensures SetterOperands(blk, |labels|, operands, constraints)
  {
    hide CompiledWithGotos, ReadText, Items, SetterFinal, Lines, SetterAt, StatementText, SetterOperands, Forwards, LabelsApart;
    before := CodeWithSetter(blk, labels, end, code, operands, constraints);
    var o, n := TargetPosition(blk), ConstPosition(blk);
    ProgramWithSetter(before, labels, end, o, n, ReadText(code));
    var prog, pre := Program(ReadText(code)), Statements(before);
    if LabelsApart(pre, labels, end) { SetterForwards(prog, |pre|, labels, end, o, n); }
  }

  /** From the branches: whoever branches to an outer label leaves its value, and only that, in the jump target. */
  lemma BranchesForwarded(blk: seq<seq<Piece>>, branches: seq<Branch>, labels: seq<string>, gotoToVal: map<string, nat>,
                          end: string, code: string, operands: seq<Value>, constraints: seq<Constraint>)
    returns (before: string)
    requires Numbered(branches, |branches|, labels, gotoToVal)
    requires CompiledWithGotos(blk, labels, end, code, operands, constraints)
    requires PlainText(end) && LabelName(end) && end !in gotoToVal
    requires forall l :: l in gotoToVal ==> PlainText(l) && LabelName(l)
    ensures StatementText(blk, before, operands, constraints)
    ensures var prog, pre := Program(ReadText(code)), Statements(before);
      !Defines(pre, end) && (forall l :: l in gotoToVal ==> !Defines(pre, l)) ==>
        Ends(prog, |pre|, end, []) && forall l :: l in gotoToVal ==> Stores(prog, l, end, gotoToVal[l], operands, constraints)
  {
    hide CompiledWithGotos, ReadText, Program, StatementText, LabelName, PlainText, Ends, Target, FirstUse;
    forall g | 0 <= g < |labels| ensures labels[g] in gotoToVal { LabelHasValue(labels, gotoToVal, g); }
    before := BlockForwards(blk, labels, end, code, operands, constraints);
    var prog, pre := Program(ReadText(code)), Statements(before);
    hide Statements;
    if !Defines(pre, end) && forall l :: l in gotoToVal ==> !Defines(pre, l) {
      assert LabelsApart(pre, labels, end);
      forall l | l in gotoToVal ensures Stores(prog, l, end, gotoToVal[l], operands, constraints) {
        assert ValOk(labels, gotoToVal, l);
        var g := gotoToVal[l] - 1;
        assert ForwardsCase(prog, labels[g], end, TargetPosition(blk), ConstPosition(blk) + g);
        assert ConstAt(blk, g, operands, constraints);
      }
    }
  }

  /** A branch to l ends at the end label, the only store being the constant val into the jump target. */
  ghost predicate Stores(prog: seq<Instr>, l: string, end: string, val: nat, operands: seq<Value>, constraints: seq<Constraint>) {
    Target(prog, l).Some? && exists src: nat, dst: nat ::
      && Ends(prog, Target(prog, l).value, end, [Moved(src, dst)])
      && src < |operands| && src < |constraints| && operands[src] == ConstUint(val) && constraints[src] == Imm
      && dst < |operands| && dst < |constraints| && operands[dst] == JumpTarget && constraints[dst] == MemOut
  }
}

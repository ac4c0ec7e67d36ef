/**
  The asm block as it is built and emitted (AsmStatement_toIR, remap_args and
  CompoundAsmStatement_toIR in ldc/gen/asmstmt.cpp).  The methods below are the
  loops of the source over strings and operand vectors; every one is proved
  against the chunk-level passes of AsmOperands.
 */
module AsmBlock {
  import opened AsmText
  import opened AsmOperands

  // ------------------------------------------------------------ the digit scan

  predicate IsArgMap(m: seq<nat>) {
    |m| == 10 && forall k :: 0 <= k < 10 ==> m[k] < 10
  }

  function Scan(s: string, pct: bool, m: seq<nat>): (t: string)
    requires IsArgMap(m)
    ensures |t| == |s|
  {
    if s == "" then ""
    else if pct && IsDigit(s[0]) then [DigitChar(m[DigitVal(s[0])])] + Scan(s[1..], false, m)
    else if pct && s[0] == '$' then [s[0]] + Scan(s[1..], false, m)
    else [s[0]] + Scan(s[1..], pct || s[0] == '$', m)
  }

  function PctAfter(s: string, pct: bool): bool {
    if s == "" then pct
    else if pct then PctAfter(s[1..], !IsDigit(s[0]) && s[0] != '$')
    else PctAfter(s[1..], s[0] == '$')
  }

  lemma {:induction false} ScanAppend(a: string, b: string, pct: bool, m: seq<nat>)
    requires IsArgMap(m)
    ensures Scan(a + b, pct, m) == Scan(a, pct, m) + Scan(b, PctAfter(a, pct), m)
    ensures PctAfter(a + b, pct) == PctAfter(b, PctAfter(a, pct))
  {
    if a == "" {
      assert a + b == b;
    } else {
      assert (a + b)[1..] == a[1..] + b && (a + b)[0] == a[0];
      hide IsDigit, DigitChar, DigitVal;
      ScanAppend(a[1..], b, if pct then !IsDigit(a[0]) && a[0] != '$' else a[0] == '$', m);
    }
  }

  lemma {:induction false} ScanPlain(s: string, pct: bool, m: seq<nat>)
    requires IsArgMap(m) && '$' !in s
    requires pct ==> forall k :: 0 <= k < |s| ==> !IsDigit(s[k])
    ensures Scan(s, pct, m) == s && PctAfter(s, pct) == pct
  {
    if s != "" { ScanPlain(s[1..], pct, m); }
  }

  ghost function PermuteChunk(c: Chunk, m: seq<nat>): Chunk
    requires IsArgMap(m) && GoodChunk(c)
  {
    if c.Hole? then Hole(c.pre, c.side, m[c.digit]) else c
  }

  /** A hole as the scan meets it: the introducer, text without digits, one digit, the rest. */
  lemma HoleText(pre: string, side: Side, d: nat)
    requires GoodPrefix(pre) && d < 10
    ensures var a := pre[1..] + Prefix(side);
      pre + Needle(side, d) == ['$'] + (a + ([DigitChar(d)] + ">>"))
      && '$' !in a && forall k :: 0 <= k < |a| ==> !IsDigit(a[k])
  {
    var tail := pre[1..];
    var a := tail + Prefix(side);
    assert forall k :: 0 <= k < |a| ==> a[k] == if k < |tail| then pre[k + 1] else Prefix(side)[k - |tail|];
  }

  lemma ScanPieces(d: nat, m: seq<nat>)
    requires IsArgMap(m) && d < 10
    ensures Scan(['$'], false, m) == ['$'] && PctAfter(['$'], false)
    ensures Scan([DigitChar(d)], true, m) == [DigitChar(m[d])] && !PctAfter([DigitChar(d)], true)
    ensures Scan(">>", false, m) == ">>" && !PctAfter(">>", false)
  {
    assert ['$'][1..] == "" && [DigitChar(d)][1..] == "";
    ScanPlain(">>", false, m);
  }

  lemma ScanHole(pre: string, side: Side, d: nat, m: seq<nat>)
    requires IsArgMap(m) && GoodPrefix(pre) && d < 10
    ensures Scan(pre + Needle(side, d), false, m) == pre + Needle(side, m[d])
    ensures !PctAfter(pre + Needle(side, d), false)
  {
    var a, x, y := pre[1..] + Prefix(side), [DigitChar(d)], [DigitChar(m[d])];
    HoleText(pre, side, d);
    HoleText(pre, side, m[d]);
    ScanPieces(d, m);
    ScanPlain(a, true, m);
    hide Scan, PctAfter, Needle, Prefix, GoodPrefix, DigitChar, IsDigit;
    ScanAppend(['$'], a + (x + ">>"), false, m);
    ScanAppend(a, x + ">>", true, m);
    ScanAppend(x, ">>", true, m);
  }

  /** Scanning a rendered template permutes its hole digits and changes nothing else. */
  lemma {:induction false} ScanRender(cs: seq<Chunk>, m: seq<nat>, cs': seq<Chunk>)
    requires IsArgMap(m) && Good(cs) && |cs'| == |cs|
    requires forall k :: 0 <= k < |cs| ==> !cs[k].Ref? && cs'[k] == PermuteChunk(cs[k], m)
    ensures Good(cs') && Scan(Render(cs), false, m) == Render(cs')
  {
    if cs != [] {
      ScanRender(cs[1..], m, cs'[1..]);
      var a, b := RenderChunk(cs[0]), Render(cs[1..]);
      ScanAppend(a, b, false, m);
      match cs[0]
      case Lit(t) => ScanPlain(t, false, m);
      case Hole(pre, side, d) => ScanHole(pre, side, d, m);
    }
  }

  /** The in-place character scan of AsmStatement_toIR. */
  method PermuteDigits(t: array<char>, m: seq<nat>)
    requires IsArgMap(m)
    modifies t
    ensures t[..] == Scan(old(t[..]), false, m)
  {
    var p, pct := 0, false;
    ghost var was := t[..];
    while p < t.Length
      invariant p <= t.Length && t[p..] == was[p..]
      invariant t[..p] + Scan(was[p..], pct, m) == Scan(was, false, m)
    {
      var c := t[p];
      assert c == t[p..][0] == was[p] && was[p..][1..] == was[p + 1..];
      if pct {
        if IsDigit(c) {
          t[p] := DigitChar(m[DigitVal(c)]);
          pct := false;
        } else if c == '$' {
          pct := false;
        }
      } else if c == '$' {
        pct := true;
      }
      p := p + 1;
      assert t[..p] == t[..p - 1] + [t[p - 1]];
    }
    assert t[..p] == t[..];
  }

  // ---------------------------------------------------------------- remap_args

  /** The first j chunks after digit i, the others before it. */
  ghost function Mixed(cs: seq<Chunk>, side: Side, i: nat, idx: nat, j: nat): seq<Chunk>
    requires j <= |cs|
  {
    seq(|cs|, k requires 0 <= k < |cs| => RemapChunk(cs, side, if k < j then i + 1 else i, idx, cs[k]))
  }

  lemma MixedZero(cs: seq<Chunk>, side: Side, i: nat, idx: nat)
    ensures Mixed(cs, side, i, idx, 0) == Remap(cs, side, i, idx)
  {
  }

  /** The holes of this name still in place are the original ones from chunk j on. */
  lemma MixedMatches(cs: seq<Chunk>, side: Side, i: nat, idx: nat, j: nat, k: nat)
    requires j <= |cs| && k < |cs|
    ensures Matches(Mixed(cs, side, i, idx, j)[k], side, i) <==> j <= k && Matches(cs[k], side, i)
    ensures Matches(cs[k], side, i) && j <= k ==> Mixed(cs, side, i, idx, j)[k] == cs[k]
    ensures !Matches(cs[k], side, i) ==>
      forall j' :: 0 <= j' <= |cs| ==> Mixed(cs, side, i, idx, j')[k] == Mixed(cs, side, i, idx, j)[k]
  {
  }

  lemma MixedStep(cs: seq<Chunk>, side: Side, i: nat, idx: nat, j: nat, f: nat)
    requires j <= |cs| && f < |cs| && Matches(Mixed(cs, side, i, idx, j)[f], side, i)
    requires forall k :: 0 <= k < f ==> !Matches(Mixed(cs, side, i, idx, j)[k], side, i)
    ensures j <= f
    ensures Mixed(cs, side, i, idx, f + 1)
         == Mixed(cs, side, i, idx, j)[f := Ref(Mixed(cs, side, i, idx, j)[f].pre, idx + Rank(cs, side, i))]
  {
    MixedMatches(cs, side, i, idx, j, f);
    var cur, next := Mixed(cs, side, i, idx, j), Mixed(cs, side, i, idx, f + 1);
    forall k | 0 <= k < |cs| && k != f ensures next[k] == cur[k] {
      MixedMatches(cs, side, i, idx, j, k);
    }
  }

  lemma MixedDone(cs: seq<Chunk>, side: Side, i: nat, idx: nat, j: nat)
    requires j <= |cs|
    requires forall k :: 0 <= k < |cs| ==> !Matches(Mixed(cs, side, i, idx, j)[k], side, i)
    ensures Mixed(cs, side, i, idx, j) == Remap(cs, side, i + 1, idx)
  {
    var all := Remap(cs, side, i + 1, idx);
    forall k | 0 <= k < |cs| ensures Mixed(cs, side, i, idx, j)[k] == all[k] {
      MixedMatches(cs, side, i, idx, j, k);
      assert Mixed(cs, side, i, idx, |cs|)[k] == all[k];
    }
  }

  lemma RenderAround(cs: seq<Chunk>, j: nat, c: Chunk)
    requires Good(cs) && j < |cs| && GoodChunk(c)
    ensures Good(cs[j := c])
    ensures Render(cs[j := c]) == Render(cs[..j]) + (RenderChunk(c) + Render(cs[j + 1..]))
  {
    var a, b := cs[..j], [c] + cs[j + 1..];
    assert cs[j := c] == a + b && b[1..] == cs[j + 1..];
    RenderAppend(a, b);
  }

  lemma SpliceText(s: string, p: nat, w: nat, a: string, pre: string, needle: string, b: string, num: string)
    requires s == a + ((pre + needle) + b) && p == |a| + |pre| && w == |needle|
    ensures p + w <= |s| && s[..p] + num + s[p + w..] == a + ((pre + num) + b)
  {
    assert s[..p] == a + pre && s[p + w..] == b;
  }

  /** Splicing a number over the needle of chunk j. */
  lemma SpliceChunk(cs: seq<Chunk>, j: nat, num: nat, s: string, p: nat, w: nat)
    requires Good(cs) && j < |cs| && cs[j].Hole? && s == Render(cs)
    requires p == |Render(cs[..j])| + |cs[j].pre| && w == |Needle(cs[j].side, cs[j].digit)|
    ensures Good(cs[j := Ref(cs[j].pre, num)]) && p + w <= |s|
    ensures Render(cs[j := Ref(cs[j].pre, num)]) == s[..p] + Decimal(num) + s[p + w..]
  {
    var c := cs[j];
    var a, b := Render(cs[..j]), Render(cs[j + 1..]);
    assert s == a + ((c.pre + Needle(c.side, c.digit)) + b) by {
      RenderAround(cs, j, c);
      assert cs[j := c] == cs;
    }
    assert Render(cs[j := Ref(c.pre, num)]) == a + ((c.pre + Decimal(num)) + b) by {
      RenderAround(cs, j, Ref(c.pre, num));
    }
    SpliceText(s, p, w, a, c.pre, Needle(c.side, c.digit), b, Decimal(num));
  }

  /** The inner find/replace loop of remap_args, for one digit. */
  method ReplaceNeedle(code: string, side: Side, i: nat, num: nat, ghost cs: seq<Chunk>, ghost idx: nat)
    returns (r: string)
    requires i < 10 && Good(cs) && num == idx + Rank(cs, side, i)
    requires Good(Remap(cs, side, i, idx)) && code == Render(Remap(cs, side, i, idx))
    ensures Good(Remap(cs, side, i + 1, idx)) && r == Render(Remap(cs, side, i + 1, idx))
  {
    hide Render, Good, Remap, OccursAt, Decimal;
    r := code;
    ghost var j := 0;
    var needle := Needle(side, i);
    RemapGood(cs, side, i + 1, idx);
    MixedZero(cs, side, i, idx);
    while true
      invariant 0 <= j <= |cs| && Good(Mixed(cs, side, i, idx, j)) && r == Render(Mixed(cs, side, i, idx, j))
      decreases |cs| - j
    {
      var p := Find(r, needle);
      ghost var cur := Mixed(cs, side, i, idx, j);
      ghost var f := SearchMeaning(cur, side, i, p);
      if p < 0 {
        MixedDone(cs, side, i, idx, j);
        break;
      }
      SpliceChunk(cur, f, num, r, p, |needle|);
      MixedStep(cs, side, i, idx, j, f);
      r := r[..p] + Decimal(num) + r[p + |needle|..];
      j := f + 1;
    }
  }

  /** remap_args: numbers are handed out only to digits that occur. */
  method RemapArgs(code: string, nargs: nat, idx0: nat, side: Side, ghost cs: seq<Chunk>) returns (r: string)
    requires nargs <= 10 && Good(cs) && code == Render(cs)
    ensures Good(Remap(cs, side, nargs, idx0)) && r == Render(Remap(cs, side, nargs, idx0))
  {
    r := code;
    var idx := idx0;
    assert Remap(cs, side, 0, idx0) == cs;
    for i := 0 to nargs
      invariant Good(Remap(cs, side, i, idx0)) && r == Render(Remap(cs, side, i, idx0))
      invariant idx == idx0 + Rank(cs, side, i)
    {
      var p := Find(r, Needle(side, i));
      ghost var cur := Remap(cs, side, i, idx0);
      ghost var f := SearchMeaning(cur, side, i, p);
      StillPresent(cs, side, i, idx0);
      if p >= 0 {
        r := ReplaceNeedle(r, side, i, idx, cs, idx0);
        idx := idx + 1;
      } else {
        NothingToReplace(cs, side, i, idx0);
      }
    }
  }

  lemma StillPresent(cs: seq<Chunk>, side: Side, i: nat, idx: nat)
    ensures Present(Remap(cs, side, i, idx), side, i) <==> Present(cs, side, i)
  {
    var cur := Remap(cs, side, i, idx);
    assert forall k :: 0 <= k < |cs| ==> (Matches(cur[k], side, i) <==> Matches(cs[k], side, i));
    if k :| 0 <= k < |cs| && Matches(cs[k], side, i) { assert Matches(cur[k], side, i); }
  }

  lemma NothingToReplace(cs: seq<Chunk>, side: Side, i: nat, idx: nat)
    requires !Present(cs, side, i)
    ensures Remap(cs, side, i + 1, idx) == Remap(cs, side, i, idx)
  {
    var a, b := Remap(cs, side, i + 1, idx), Remap(cs, side, i, idx);
    forall k | 0 <= k < |cs| ensures a[k] == b[k] { assert !Matches(cs[k], side, i); }
  }

  // ------------------------------------------------------------- one statement

  datatype IRAsmStmt = IRAsmStmt(code: string, outOps: seq<Value>, inOps: seq<Value>,
                                 outC: seq<Constraint>, inC: seq<Constraint>)

  function Vals(args: seq<Arg>): (vs: seq<Value>)
    ensures |vs| == |args|
  {
    seq(|args|, k requires 0 <= k < |args| => args[k].val)
  }

  function InConstraints(args: seq<Arg>): (cs: seq<Constraint>)
    ensures |cs| == |args|
  {
    seq(|args|, k requires 0 <= k < |args| => InConstraint(args[k]))
  }

  /** The updated operands among the first n outputs: they come back as tied inputs. */
  function Updated(outs: seq<Arg>, n: nat): (r: seq<nat>)
    requires n <= |outs|
    ensures |r| <= n
    ensures forall k :: 0 <= k < |r| ==> r[k] < n && outs[r[k]].mode == Update
  {
    if n == 0 then []
    else Updated(outs, n - 1) + if outs[n - 1].mode == Update then [n - 1] else []
  }

  function TieVals(outs: seq<Arg>, n: nat): (r: seq<Value>)
    requires n <= |outs|
  {
    var u := Updated(outs, n);
    seq(|u|, k requires 0 <= k < |u| => outs[u[k]].val)
  }

  function TieConstraints(outs: seq<Arg>, n: nat, outputcount: nat): (r: seq<Constraint>)
    requires n <= |outs|
  {
    var u := Updated(outs, n);
    seq(|u|, k requires 0 <= k < |u| => Tie(u[k] + outputcount))
  }

  lemma TieStep(outs: seq<Arg>, n: nat, base: nat)
    requires n < |outs|
    ensures TieVals(outs, n + 1) == TieVals(outs, n) + if outs[n].mode == Update then [outs[n].val] else []
    ensures TieConstraints(outs, n + 1, base)
         == TieConstraints(outs, n, base) + if outs[n].mode == Update then [Tie(n + base)] else []
  {
    var u := Updated(outs, n);
    assert Updated(outs, n + 1) == u + if outs[n].mode == Update then [n] else [];
    hide Updated;
  }

  lemma NoTies(outs: seq<Arg>, base: nat)
    ensures TieVals(outs, 0) == [] && TieConstraints(outs, 0, base) == []
  {
  }

  function MemOuts(n: nat): seq<Constraint> { seq(n, _ => MemOut) }

  function AddOperand(p: Piece, index: nat): string
    requires p.Operand? ==> index < 10
  {
    match p case Text(t) => t case Operand(pre, a) => pre + Needle(SideOf(a), index)
  }

  /** The formatter: operands get the hole `<<inK>>`/`<<outK>>` of their index. */
  method FormatInstruction(ps: seq<Piece>) returns (template: string, args: seq<Arg>)
    requires |Args(ps)| <= 10 && forall k :: 0 <= k < |ps| ==> GoodPiece(ps[k])
    ensures args == Args(ps) && Good(Holes(ps)) && template == Render(Holes(ps))
  {
    HolesGood(ps);
    template, args := "", [];
    hide Good, AddOperand;
    assert Holes(ps)[..0] == [];
    for j := 0 to |ps|
      invariant args == Args(ps[..j]) && |args| == NumOps(ps, j)
      invariant template == Render(Holes(ps)[..j])
    {
      FormatStep(ps, j);
      ArgsStep(ps, j);
      template := template + AddOperand(ps[j], |args|);
      if ps[j].Operand? { args := args + [ps[j].arg]; }
    }
    assert ps[..|ps|] == ps && Holes(ps)[..|ps|] == Holes(ps);
  }

  lemma RenderNext(cs: seq<Chunk>, j: nat)
    requires Good(cs) && j < |cs|
    ensures Render(cs[..j + 1]) == Render(cs[..j]) + RenderChunk(cs[j])
  {
    assert cs[..j + 1] == cs[..j] + [cs[j]];
    RenderAppend(cs[..j], [cs[j]]);
    assert Render([cs[j]]) == RenderChunk(cs[j]) + "";
  }

  lemma ArgsStep(ps: seq<Piece>, j: nat)
    requires j < |ps|
    ensures Args(ps[..j + 1]) == Args(ps[..j]) + if ps[j].Operand? then [ps[j].arg] else []
  {
    assert ps[..j + 1][..j] == ps[..j];
  }

  lemma FormatStep(ps: seq<Piece>, j: nat)
    requires j < |ps| && Good(Holes(ps)) && |Args(ps)| <= 10
    ensures ps[j].Operand? ==> NumOps(ps, j) < 10
    ensures Render(Holes(ps)[..j + 1]) == Render(Holes(ps)[..j]) + AddOperand(ps[j], NumOps(ps, j))
  {
    NumOpsMono(ps, j + 1, |ps|);
    var cs := Holes(ps);
    RenderNext(cs, j);
    assert RenderChunk(cs[j]) == AddOperand(ps[j], NumOps(ps, j));
  }

  lemma HolesGood(ps: seq<Piece>)
    requires |Args(ps)| <= 10 && forall k :: 0 <= k < |ps| ==> GoodPiece(ps[k])
    ensures Good(Holes(ps)) && Good(Permuted(ps))
  {
    forall j | 0 <= j < |ps| ensures GoodChunk(Holes(ps)[j]) && GoodChunk(Permuted(ps)[j]) {
      if ps[j].Operand? {
        ArgsAt(ps, j);
        ArgNumberRange(Args(ps), NumOps(ps, j));
      }
    }
  }

  function OutConstraints(outs: seq<Arg>): (cs: seq<Constraint>)
    ensures |cs| == |outs|
  {
    seq(|outs|, k requires 0 <= k < |outs| => if outs[k].mode == Update then MemUpdate else MemOut)
  }

  /** arg_map after the argument loop: inputs still count down from -1. */
  ghost predicate RawMap(argMap: seq<int>, args: seq<Arg>, i: nat) {
    && |argMap| == 10 && i <= |args|
    && forall k :: 0 <= k < i && k < 10 ==>
         argMap[k] == if SideOf(args[k]) == In then -1 - Count(args, In, k) else Count(args, Out, k)
  }

  lemma SelectStep(args: seq<Arg>, side: Side, i: nat)
    requires i < |args|
    ensures Select(args[..i + 1], side) == Select(args[..i], side) + if SideOf(args[i]) == side then [args[i]] else []
  {
    assert args[..i + 1][..i] == args[..i];
  }

  /** The argument loop of AsmStatement_toIR. */
  method ClassifyArgs(args: seq<Arg>)
    returns (m: seq<nat>, outOps: seq<Value>, outC: seq<Constraint>, inOps: seq<Value>, inC: seq<Constraint>)
    requires |args| <= 10
    ensures IsArgMap(m) && forall i :: 0 <= i < |args| ==> m[i] == ArgNumber(args, i)
    ensures outOps == Vals(Select(args, Out)) && outC == OutConstraints(Select(args, Out))
    ensures inOps == Vals(Select(args, In)) && inC == InConstraints(Select(args, In))
  {
    var argMap: seq<int> := seq(10, _ => 0);
    var inputIdx, nOutputs := 0, 0;
    outOps, outC, inOps, inC := [], [], [], [];
    for i := 0 to |args|
      invariant -inputIdx == Count(args, In, i) && nOutputs == Count(args, Out, i)
      invariant RawMap(argMap, args, i)
      invariant outOps == Vals(Select(args[..i], Out)) && outC == OutConstraints(Select(args[..i], Out))
      invariant inOps == Vals(Select(args[..i], In)) && inC == InConstraints(Select(args[..i], In))
    {
      var arg := args[i];
      SelectStep(args, In, i);
      SelectStep(args, Out, i);
      if arg.mode == Input {
        inputIdx := inputIdx - 1;
        argMap := argMap[i := inputIdx];
        inOps, inC := inOps + [arg.val], inC + [if arg.kind == Memory then MemIn else Imm];
      } else {
        argMap := argMap[i := nOutputs];
        nOutputs := nOutputs + 1;
        outOps, outC := outOps + [arg.val], outC + [if arg.mode == Update then MemUpdate else MemOut];
      }
    }
    assert args[..|args|] == args;
    m := FlipInputs(argMap, |args|, nOutputs, args);
  }

  /** "Remap argument numbers": inputs are moved behind the outputs. */
  method FlipInputs(argMap: seq<int>, nargs: nat, nOutputs: nat, ghost args: seq<Arg>) returns (m: seq<nat>)
    requires nargs == |args| <= 10 && RawMap(argMap, args, nargs) && nOutputs == NumOuts(args)
    ensures IsArgMap(m) && forall i :: 0 <= i < |args| ==> m[i] == ArgNumber(args, i)
  {
    m := seq(10, _ => 0);
    for i := 0 to nargs
      invariant IsArgMap(m) && forall k :: 0 <= k < i ==> m[k] == ArgNumber(args, k)
    {
      ArgNumberRange(args, i);
      m := m[i := if argMap[i] < 0 then -argMap[i] - 1 + nOutputs else argMap[i]];
    }
  }

  /** Splitting update operands: the output stays, a tied input is appended. */
  method SplitUpdates(outOps: seq<Value>, outC0: seq<Constraint>, outputcount: nat,
                      inOps0: seq<Value>, inC0: seq<Constraint>, ghost outs: seq<Arg>)
    returns (outC: seq<Constraint>, inOps: seq<Value>, inC: seq<Constraint>)
    requires outOps == Vals(outs) && outC0 == OutConstraints(outs)
    ensures outC == MemOuts(|outs|)
    ensures inOps == inOps0 + TieVals(outs, |outs|)
    ensures inC == inC0 + TieConstraints(outs, |outs|, outputcount)
  {
    hide Updated, TieVals, TieConstraints;
    outC, inOps, inC := outC0, inOps0, inC0;
    NoTies(outs, outputcount);
    for n := 0 to |outC0|
      invariant |outC| == |outs| && forall k :: 0 <= k < n ==> outC[k] == MemOut
      invariant outC[n..] == OutConstraints(outs)[n..]
      invariant inOps == inOps0 + TieVals(outs, n)
      invariant inC == inC0 + TieConstraints(outs, n, outputcount)
    {
      assert outC[n] == OutConstraints(outs)[n..][0];
      TieStep(outs, n, outputcount);
      if outC[n] == MemUpdate {
        outC := outC[n := MemOut];
        inC := inC + [Tie(n + outputcount)];
        inOps := inOps + [outOps[n]];
      }
    }
  }

  // ----------------------------------------------------------------- the block

  function Flatten<T>(xss: seq<seq<T>>): seq<T> {
    if xss == [] then [] else Flatten(xss[..|xss| - 1]) + xss[|xss| - 1]
  }

  function Offset<T>(xss: seq<seq<T>>, i: nat): nat
    requires i <= |xss|
  {
    if i == 0 then 0 else Offset(xss, i - 1) + |xss[i - 1]|
  }

  lemma OffsetPrefix<T>(xss: seq<seq<T>>, m: nat, i: nat)
    requires i <= m <= |xss|
    ensures Offset(xss[..m], i) == Offset(xss, i)
  {
  }

  lemma {:induction false} FlattenSize<T>(xss: seq<seq<T>>)
    ensures |Flatten(xss)| == Offset(xss, |xss|)
  {
    if xss != [] {
      var m := |xss| - 1;
      FlattenSize(xss[..m]);
      OffsetPrefix(xss, m, m);
    }
  }

  lemma {:induction false} FlattenAt<T>(xss: seq<seq<T>>, i: nat, d: nat)
    requires i < |xss| && d < |xss[i]|
    ensures Offset(xss, i) + d < |Flatten(xss)| && Flatten(xss)[Offset(xss, i) + d] == xss[i][d]
  {
    var m := |xss| - 1;
    FlattenSize(xss[..m]);
    OffsetPrefix(xss, m, i);
    if i < m { FlattenAt(xss[..m], i, d); }
  }

  function OutLists(s: seq<IRAsmStmt>): seq<seq<Value>> { seq(|s|, i requires 0 <= i < |s| => s[i].outOps) }
  function InLists(s: seq<IRAsmStmt>): seq<seq<Value>> { seq(|s|, i requires 0 <= i < |s| => s[i].inOps) }
  function OutCs(s: seq<IRAsmStmt>): seq<seq<Constraint>> { seq(|s|, i requires 0 <= i < |s| => s[i].outC) }
  function InCs(s: seq<IRAsmStmt>): seq<seq<Constraint>> { seq(|s|, i requires 0 <= i < |s| => s[i].inC) }

  function OutBase(s: seq<IRAsmStmt>, i: nat): nat requires i <= |s| { Offset(OutLists(s), i) }
  function InBase(s: seq<IRAsmStmt>, i: nat): nat requires i <= |s| {
    Offset(OutLists(s), |s|) + Offset(InLists(s), i)
  }

  ghost predicate StmtOk(st: IRAsmStmt, cs: seq<Chunk>, held: nat) {
    && Good(cs) && st.code == Render(cs)
    && Dense(cs, |st.outOps|, held) && held <= |st.inOps|
    && |st.outOps| + |st.inOps| <= 10 && |st.inC| == |st.inOps|
  }

  /** The statement AsmStatement_toIR pushes for the formatted pieces. */
  ghost function Emitted(ps: seq<Piece>, outputcount: nat): IRAsmStmt
    requires Good(Permuted(ps))
  {
    var args := Args(ps);
    var outs, ins := Select(args, Out), Select(args, In);
    IRAsmStmt(Render(Permuted(ps)), Vals(outs), Vals(ins) + TieVals(outs, |outs|),
              MemOuts(|outs|), InConstraints(ins) + TieConstraints(outs, |outs|, outputcount))
  }

  /** What a piece of text becomes at the end: an operand becomes its block-wide number. */
  ghost function FinalShape(cs: seq<Chunk>, outs: nat, held: nat, outBase: nat, inBase: nat): seq<Chunk>
    requires Dense(cs, outs, held)
  {
    seq(|cs|, j requires 0 <= j < |cs| => Resolved(cs[j], outs, outBase, inBase))
  }

  lemma FinalShapeIsBothPasses(cs: seq<Chunk>, outs: nat, held: nat, bound: nat, outBase: nat, inBase: nat)
    requires Dense(cs, outs, held) && outs + held <= bound
    ensures Remap(Remap(cs, Out, bound, outBase), In, bound, inBase) == FinalShape(cs, outs, held, outBase, inBase)
  {
    var a, b := Remap(Remap(cs, Out, bound, outBase), In, bound, inBase), FinalShape(cs, outs, held, outBase, inBase);
    forall j | 0 <= j < |cs| ensures a[j] == b[j] {
      BothPasses(cs, outs, held, bound, outBase, inBase, j);
    }
  }

  function AppendLine(code: string, line: string): string {
    (if code == "" then "" else code + "\n\t") + line
  }

  function Join(lines: seq<string>): string {
    if lines == [] then "" else AppendLine(Join(lines[..|lines| - 1]), lines[|lines| - 1])
  }

  class IRAsmBlock {
    var s: seq<IRAsmStmt>
    var outputcount: nat
    var retn: nat
    ghost var shape: seq<seq<Chunk>>
    ghost var held: seq<nat>

    ghost predicate Valid() reads this {
      AllOk(s, shape, held)
    }

    constructor ()
      ensures Valid() && s == [] && shape == [] && held == [] && retn == 0 && outputcount == 0
    {
      s, outputcount, retn, shape, held := [], 0, 0, [], [];
    }

    /** AsmStatement_toIR. */
    method AddStatement(template: string, args: seq<Arg>, ghost ps: seq<Piece>)
      requires Valid() && args == Args(ps) && |args| <= 10
      requires forall k :: 0 <= k < |ps| ==> GoodPiece(ps[k])
      requires Good(Holes(ps)) && template == Render(Holes(ps))
      requires |args| + |Updated(Select(args, Out), |Select(args, Out)|)| <= 10
      modifies this
      ensures Valid() && Good(Permuted(ps))
      ensures s == old(s) + [Emitted(ps, old(outputcount))]
      ensures shape == old(shape) + [Permuted(ps)]
      ensures held == old(held) + [|Select(args, In)|]
      ensures outputcount == old(outputcount) + |Select(args, Out)| && retn == old(retn)
    {
      HolesGood(ps);
      var m, outOps, outC0, inOps0, inC0 := ClassifyArgs(args);
      var t := new char[|template|](k requires 0 <= k < |template| => template[k]);
      assert t[..] == template;
      PermuteDigits(t, m);
      ScanRender(Holes(ps), m, Permuted(ps)) by { PermutedIsScan(ps, m); }
      ghost var outs := Select(args, Out);
      var outC, inOps, inC := SplitUpdates(outOps, outC0, outputcount, inOps0, inC0, outs);
      EmittedOk(ps, outputcount);
      AllOkConcat(s, shape, held, [Emitted(ps, outputcount)], [Permuted(ps)], [|Select(args, In)|]);
      s := s + [IRAsmStmt(t[..], outOps, inOps, outC, inC)];
      outputcount := outputcount + |outOps|;
      shape := shape + [Permuted(ps)];
      held := held + [|Select(args, In)|];
    }

    /** emitABIReturnAsmStmt as far as numbering goes: n return constraints in front, no operands. */
    method EmitAbiReturn(n: nat)
      requires Valid()
      modifies this
      ensures Valid() && retn == n && outputcount == old(outputcount)
      ensures s == [IRAsmStmt("", [], [], seq(n, _ => ReturnReg), [])] + old(s)
      ensures shape == [[]] + old(shape) && held == [0] + old(held)
    {
      AllOkConcat([IRAsmStmt("", [], [], seq(n, _ => ReturnReg), [])], [[]], [0], s, shape, held);
      s := [IRAsmStmt("", [], [], seq(n, _ => ReturnReg), [])] + s;
      retn, shape, held := n, [[]] + shape, [0] + held;
    }

    /** The forwarder for branches to labels outside the block: value g is stored under label g. */
    method AddGotoSetter(labels: seq<string>, end: string)
      requires Valid() && 0 < |labels| <= 9 && PlainText(end)
      requires forall k :: 0 <= k < |labels| ==> PlainText(labels[k])
      modifies this
      ensures Valid() && retn == old(retn) && outputcount == old(outputcount)
      ensures Good(SetterShape(labels, end, |labels|))
      ensures s == old(s) + [SetterStmt(labels, end)]
      ensures shape == old(shape) + [SetterShape(labels, end, |labels|)] && held == old(held) + [|labels|]
    {
      var code, inOps, inC := GotoSetterText(labels, end);
      SetterOk(labels, end);
      AllOkConcat(s, shape, held, [SetterStmt(labels, end)], [SetterShape(labels, end, |labels|)], [|labels|]);
      s := s + [IRAsmStmt(code, [JumpTarget], inOps, [MemOut], inC)];
      shape, held := shape + [SetterShape(labels, end, |labels|)], held + [|labels|];
    }

    /** The "do outputs" and "do inputs" loops of CompoundAsmStatement_toIR. */
    method Finish() returns (code: string, operands: seq<Value>, constraints: seq<Constraint>)
      requires Valid()
      modifies this
      ensures operands == Flatten(OutLists(old(s))) + Flatten(InLists(old(s)))
      ensures constraints == Flatten(OutCs(old(s))) + Flatten(InCs(old(s)))
      ensures code == FinalText(old(s), old(shape), old(held), old(retn))
      ensures s == []
    {
      var outs, outC, asmIdx, mid := DoOutputs(s, retn, shape, held);
      var ins, inC, text := DoInputs(mid, asmIdx, s, retn, shape, held);
      code, operands, constraints := text, outs + ins, outC + inC;
      s := [];
    }
  }

  ghost predicate PlainText(t: string) { '$' !in t && LT !in t }

  function JmpEnd(end: string): string { "\n\tjmp " + end + "\n" }

  ghost function SetterBody(labels: seq<string>, end: string, n: nat): seq<Chunk>
    requires n <= |labels|
  {
    if n == 0 then [Lit(JmpEnd(end))]
    else SetterBody(labels, end, n - 1) + SetterCase(labels[n - 1], end, n)
  }

  ghost function SetterCase(l: string, end: string, n: nat): seq<Chunk> {
    [Lit(l + ":\n\tmovl "), Hole("$", In, n), Lit(", "), Hole("$", Out, 0), Lit("\n" + JmpEnd(end))]
  }

  ghost function SetterShape(labels: seq<string>, end: string, n: nat): seq<Chunk>
    requires n <= |labels|
  {
    SetterBody(labels, end, n) + [Lit(end + ":\n")]
  }

  ghost function SetterStmt(labels: seq<string>, end: string): IRAsmStmt
    requires Good(SetterShape(labels, end, |labels|))
  {
    IRAsmStmt(Render(SetterShape(labels, end, |labels|)), [JumpTarget],
              GotoConsts(|labels|), [MemOut], seq(|labels|, _ => Imm))
  }

  lemma {:induction false} SetterGood(labels: seq<string>, end: string, n: nat)
    requires n <= |labels| <= 9 && PlainText(end) && forall k :: 0 <= k < |labels| ==> PlainText(labels[k])
    ensures Good(SetterBody(labels, end, n)) && Good(SetterShape(labels, end, n))
  {
    hide GoodText, PlainText, JmpEnd;
    EndGood(end);
    if n > 0 {
      SetterGood(labels, end, n - 1);
      CaseGood(labels[n - 1]);
    }
  }

  lemma PlainIsGood(t: string)
    requires PlainText(t)
    ensures GoodText(t)
  {
  }

  lemma EndGood(end: string)
    requires PlainText(end)
    ensures GoodText(JmpEnd(end)) && GoodText("\n" + JmpEnd(end)) && GoodText(end + ":\n")
  {
    hide GoodText;
    PlainIsGood(JmpEnd(end));
    PlainIsGood("\n" + JmpEnd(end));
    PlainIsGood(end + ":\n");
  }

  lemma CaseGood(l: string)
    requires PlainText(l)
    ensures GoodText(l + ":\n\tmovl ") && GoodText(", ")
  {
    hide GoodText;
    PlainIsGood(l + ":\n\tmovl ");
    PlainIsGood(", ");
  }

  function GotoConsts(n: nat): (vs: seq<Value>)
    ensures |vs| == n && forall k :: 0 <= k < n ==> vs[k] == ConstUint(k + 1)
  {
    if n == 0 then [] else GotoConsts(n - 1) + [ConstUint(n)]
  }

  function SetterCaseText(l: string, end: string, n: nat): string
    requires n < 10
  {
    l + ":\n\tmovl " + (("$" + Needle(In, n)) + (", " + (("$" + Needle(Out, 0)) + ("\n" + JmpEnd(end)))))
  }

  lemma SetterStep(labels: seq<string>, end: string, n: nat)
    requires n < |labels| <= 9 && PlainText(end) && forall k :: 0 <= k < |labels| ==> PlainText(labels[k])
    ensures Good(SetterBody(labels, end, n)) && Good(SetterBody(labels, end, n + 1))
    ensures Render(SetterBody(labels, end, n + 1)) == Render(SetterBody(labels, end, n)) + SetterCaseText(labels[n], end, n + 1)
  {
    SetterGood(labels, end, n);
    SetterGood(labels, end, n + 1);
    var c := SetterCase(labels[n], end, n + 1);
    RenderAppend(SetterBody(labels, end, n), c);
    RenderFive(c);
  }

  lemma RenderFive(c: seq<Chunk>)
    requires |c| == 5 && Good(c)
    ensures Render(c) == RenderChunk(c[0]) + (RenderChunk(c[1]) + (RenderChunk(c[2]) + (RenderChunk(c[3]) + RenderChunk(c[4]))))
  {
    assert c[1..][1..] == c[2..] && c[2..][1..] == c[3..] && c[3..][1..] == c[4..] && c[4..][1..] == [];
    assert Render(c[4..]) == RenderChunk(c[4]) + "" == RenderChunk(c[4]);
    assert Render(c[3..]) == RenderChunk(c[3]) + Render(c[4..]);
    assert Render(c[2..]) == RenderChunk(c[2]) + Render(c[3..]);
    assert Render(c[1..]) == RenderChunk(c[1]) + Render(c[2..]);
  }

  method GotoSetterText(labels: seq<string>, end: string)
    returns (code: string, inOps: seq<Value>, inC: seq<Constraint>)
    requires 0 < |labels| <= 9 && PlainText(end) && forall k :: 0 <= k < |labels| ==> PlainText(labels[k])
    ensures inOps == GotoConsts(|labels|) && inC == seq(|labels|, _ => Imm)
    ensures Good(SetterShape(labels, end, |labels|)) && code == Render(SetterShape(labels, end, |labels|))
  {
    code, inOps, inC := JmpEnd(end), [], [];
    SetterGood(labels, end, 0);
    assert Render([Lit(JmpEnd(end))]) == JmpEnd(end) + "";
    for n := 0 to |labels|
      invariant Good(SetterBody(labels, end, n)) && code == Render(SetterBody(labels, end, n))
      invariant inOps == GotoConsts(n) && inC == seq(n, _ => Imm)
    {
      SetterStep(labels, end, n);
      code := code + SetterCaseText(labels[n], end, n + 1);
      inOps, inC := inOps + [ConstUint(n + 1)], inC + [Imm];
    }
    SetterGood(labels, end, |labels|);
    RenderAppend(SetterBody(labels, end, |labels|), [Lit(end + ":\n")]);
    assert Render([Lit(end + ":\n")]) == end + ":\n" + "";
    code := code + (end + ":\n");
  }

  lemma {:induction false} SetterDense(labels: seq<string>, end: string, n: nat)
    requires n <= |labels|
    ensures Dense(SetterBody(labels, end, n), if n > 0 then 1 else 0, n)
    ensures Dense(SetterShape(labels, end, n), if n > 0 then 1 else 0, n)
  {
    var cs := SetterBody(labels, end, n);
    if n > 0 {
      SetterDense(labels, end, n - 1);
      var old', c := SetterBody(labels, end, n - 1), SetterCase(labels[n - 1], end, n);
      assert cs[|old'| + 1] == Hole("$", In, n) && cs[|old'| + 3] == Hole("$", Out, 0);
      assert Matches(cs[|old'| + 3], Out, 0) && Matches(cs[|old'| + 1], In, n);
      forall d | 1 <= d < n ensures Present(cs, In, d) {
        assert Present(old', In, d);
        var k :| 0 <= k < |old'| && Matches(old'[k], In, d);
        assert Matches(cs[k], In, d);
      }
    }
    var sh := SetterShape(labels, end, n);
    assert forall k :: 0 <= k < |cs| ==> sh[k] == cs[k];
    forall side, d | Present(cs, side, d) ensures Present(sh, side, d) {
      var k :| 0 <= k < |cs| && Matches(cs[k], side, d);
      assert Matches(sh[k], side, d);
    }
  }

  lemma SetterOk(labels: seq<string>, end: string)
    requires 0 < |labels| <= 9 && PlainText(end) && forall k :: 0 <= k < |labels| ==> PlainText(labels[k])
    ensures Good(SetterShape(labels, end, |labels|))
    ensures AllOk([SetterStmt(labels, end)], [SetterShape(labels, end, |labels|)], [|labels|])
  {
    SetterGood(labels, end, |labels|);
    SetterDense(labels, end, |labels|);
  }

  ghost predicate OkAt(s: seq<IRAsmStmt>, shape: seq<seq<Chunk>>, held: seq<nat>, i: nat) {
    i < |s| && i < |shape| && i < |held| && StmtOk(s[i], shape[i], held[i])
  }

  ghost predicate AllOk(s: seq<IRAsmStmt>, shape: seq<seq<Chunk>>, held: seq<nat>) {
    |shape| == |s| == |held| && forall i: nat :: i < |s| ==> OkAt(s, shape, held, i)
  }

  predicate SameOperands(a: IRAsmStmt, b: IRAsmStmt) {
    a.outOps == b.outOps && a.inOps == b.inOps && a.outC == b.outC && a.inC == b.inC
  }

  /** Statement k has been through the output pass. */
  ghost predicate OutDone(s: seq<IRAsmStmt>, shape: seq<seq<Chunk>>, retn: nat, mid: seq<IRAsmStmt>, k: nat) {
    && k < |s| && k < |shape| && k < |mid| && SameOperands(mid[k], s[k])
    && var cs := OutPass(s, shape, retn, k); Good(cs) && mid[k].code == Render(cs)
  }

  lemma OutDoneSnoc(s: seq<IRAsmStmt>, shape: seq<seq<Chunk>>, retn: nat, mid: seq<IRAsmStmt>, c: string)
    requires |mid| < |s| == |shape| && forall k: nat :: k < |mid| ==> OutDone(s, shape, retn, mid, k)
    requires Good(OutPass(s, shape, retn, |mid|)) && c == Render(OutPass(s, shape, retn, |mid|))
    ensures forall k: nat :: k < |mid| + 1 ==> OutDone(s, shape, retn, mid + [s[|mid|].(code := c)], k)
  {
    var next := mid + [s[|mid|].(code := c)];
    forall k: nat | k < |mid| + 1 ensures OutDone(s, shape, retn, next, k) {
      if k < |mid| { assert OutDone(s, shape, retn, mid, k); }
    }
  }

  lemma AllOkConcat(s: seq<IRAsmStmt>, shape: seq<seq<Chunk>>, held: seq<nat>,
                    s': seq<IRAsmStmt>, shape': seq<seq<Chunk>>, held': seq<nat>)
    requires AllOk(s, shape, held) && AllOk(s', shape', held')
    ensures AllOk(s + s', shape + shape', held + held')
  {
    forall i: nat | i < |s + s'| ensures OkAt(s + s', shape + shape', held + held', i) {
      assert if i < |s| then OkAt(s, shape, held, i) else OkAt(s', shape', held', i - |s|);
    }
  }

  method RenumberOutputs(a: IRAsmStmt, asmIdx: nat, ghost s: seq<IRAsmStmt>, ghost retn: nat,
                         ghost shape: seq<seq<Chunk>>, ghost held: seq<nat>, ghost i: nat)
    returns (c: string)
    requires OkAt(s, shape, held, i) && a == s[i] && asmIdx == retn + OutBase(s, i)
    ensures Good(OutPass(s, shape, retn, i)) && c == Render(OutPass(s, shape, retn, i))
  {
    hide Render, Good, Remap, Dense, OutBase;
    c := RemapArgs(a.code, |a.outOps| + |a.inOps|, asmIdx, Out, shape[i]);
  }

  method DoOutputs(s: seq<IRAsmStmt>, retn: nat, ghost shape: seq<seq<Chunk>>, ghost held: seq<nat>)
    returns (outArgs: seq<Value>, outC: seq<Constraint>, asmIdx: nat, mid: seq<IRAsmStmt>)
    requires AllOk(s, shape, held)
    ensures outArgs == Flatten(OutLists(s)) && outC == Flatten(OutCs(s)) && asmIdx == retn + InBase(s, 0)
    ensures |mid| == |s| && forall k: nat :: k < |s| ==> OutDone(s, shape, retn, mid, k)
  {
    outArgs, outC, asmIdx, mid := [], [], retn, [];
    ghost var ol, oc := OutLists(s), OutCs(s);
    for i := 0 to |s|
      invariant outArgs == Flatten(ol[..i]) && outC == Flatten(oc[..i])
      invariant asmIdx == retn + OutBase(s, i) && |mid| == i
      invariant forall k: nat :: k < i ==> OutDone(s, shape, retn, mid, k)
    {
      var a := s[i];
      FlattenStep(ol, i);
      FlattenStep(oc, i);
      outArgs, outC := outArgs + a.outOps, outC + a.outC;
      var c := RenumberOutputs(a, asmIdx, s, retn, shape, held, i);
      OutDoneSnoc(s, shape, retn, mid, c);
      mid := mid + [a.(code := c)];
      asmIdx := asmIdx + |a.outOps|;
    }
    assert ol[..|s|] == ol && oc[..|s|] == oc;
  }

  lemma JoinStep(lines: seq<string>, i: nat)
    requires i < |lines|
    ensures Join(lines[..i + 1]) == AppendLine(Join(lines[..i]), lines[i])
  {
    assert lines[..i + 1][..i] == lines[..i];
  }

  lemma SecondPassOf(mid: seq<IRAsmStmt>, s: seq<IRAsmStmt>, shape: seq<seq<Chunk>>, held: seq<nat>, retn: nat, i: nat)
    requires AllOk(s, shape, held) && OutDone(s, shape, retn, mid, i)
    ensures i < |s| && i < |mid| && i < |shape| && OkAt(s, shape, held, i)
    ensures |mid[i].inOps| + |mid[i].outOps| <= 10
    ensures Good(OutPass(s, shape, retn, i)) && mid[i].code == Render(OutPass(s, shape, retn, i))
    ensures Good(Remap(OutPass(s, shape, retn, i), In, |mid[i].inOps| + |mid[i].outOps|, retn + InBase(s, i)))
    ensures Render(Remap(OutPass(s, shape, retn, i), In, |mid[i].inOps| + |mid[i].outOps|, retn + InBase(s, i)))
         == FinalLine(s, shape, held, retn, i)
  {
    SecondPass(s, shape, held, retn, i);
  }

  method RenumberInputs(a: IRAsmStmt, asmIdx: nat, ghost s: seq<IRAsmStmt>, ghost retn: nat,
                        ghost shape: seq<seq<Chunk>>, ghost held: seq<nat>, ghost mid: seq<IRAsmStmt>, ghost i: nat)
    returns (c: string)
    requires AllOk(s, shape, held) && OutDone(s, shape, retn, mid, i) && a == mid[i] && asmIdx == retn + InBase(s, i)
    ensures c == FinalLine(s, shape, held, retn, i)
  {
    hide *;
    SecondPassOf(mid, s, shape, held, retn, i);
    c := RemapArgs(a.code, |a.inOps| + |a.outOps|, asmIdx, In, OutPass(s, shape, retn, i));
  }

  method DoInputs(mid: seq<IRAsmStmt>, asmIdx0: nat,
                  ghost s: seq<IRAsmStmt>, ghost retn: nat, ghost shape: seq<seq<Chunk>>, ghost held: seq<nat>)
    returns (inArgs: seq<Value>, inC: seq<Constraint>, code: string)
    requires AllOk(s, shape, held) && asmIdx0 == retn + InBase(s, 0)
    requires |mid| == |s| && forall k: nat :: k < |s| ==> OutDone(s, shape, retn, mid, k)
    ensures inArgs == Flatten(InLists(s)) && inC == Flatten(InCs(s))
    ensures code == FinalText(s, shape, held, retn)
  {
    inArgs, inC, code := [], [], "";
    ghost var lines, il, ic := FinalLines(s, shape, held, retn), InLists(s), InCs(s);
    var asmIdx := asmIdx0;
    for i := 0 to |mid|
      invariant inArgs == Flatten(il[..i]) && inC == Flatten(ic[..i])
      invariant asmIdx == retn + InBase(s, i)
      invariant code == Join(lines[..i])
    {
      var a := mid[i];
      assert OutDone(s, shape, retn, mid, i);
      FlattenStep(il, i);
      FlattenStep(ic, i);
      JoinStep(lines, i);
      inArgs, inC := inArgs + a.inOps, inC + a.inC;
      var c := RenumberInputs(a, asmIdx, s, retn, shape, held, mid, i);
      asmIdx := asmIdx + |a.inOps|;
      code := AppendLine(code, c);
    }
    assert il[..|s|] == il && ic[..|s|] == ic && lines[..|s|] == lines;
  }

  lemma SecondPass(s: seq<IRAsmStmt>, shape: seq<seq<Chunk>>, held: seq<nat>, retn: nat, i: nat)
    requires AllOk(s, shape, held) && i < |s|
    ensures OkAt(s, shape, held, i) && Good(FinalStmt(s, shape, held, retn, i))
    ensures Remap(OutPass(s, shape, retn, i), In, |s[i].inOps| + |s[i].outOps|, retn + InBase(s, i))
         == FinalStmt(s, shape, held, retn, i)
  {
    assert OkAt(s, shape, held, i);
    var cs := FinalStmt(s, shape, held, retn, i);
    forall k | 0 <= k < |cs| ensures GoodChunk(cs[k]) { assert GoodChunk(shape[i][k]); }
    FinalShapeIsBothPasses(shape[i], |s[i].outOps|, held[i], |s[i].outOps| + |s[i].inOps|,
                           retn + OutBase(s, i), retn + InBase(s, i));
  }

  ghost function FinalLine(s: seq<IRAsmStmt>, shape: seq<seq<Chunk>>, held: seq<nat>, retn: nat, i: nat): string
    requires AllOk(s, shape, held) && i < |s|
  {
    SecondPass(s, shape, held, retn, i);
    Render(FinalStmt(s, shape, held, retn, i))
  }

  ghost function FinalLines(s: seq<IRAsmStmt>, shape: seq<seq<Chunk>>, held: seq<nat>, retn: nat): (ls: seq<string>)
    requires AllOk(s, shape, held)
    ensures |ls| == |s| && forall i :: 0 <= i < |s| ==> ls[i] == FinalLine(s, shape, held, retn, i)
  {
    seq(|s|, i requires 0 <= i < |s| => FinalLine(s, shape, held, retn, i))
  }

  ghost function FinalText(s: seq<IRAsmStmt>, shape: seq<seq<Chunk>>, held: seq<nat>, retn: nat): string
    requires AllOk(s, shape, held)
  {
    Join(FinalLines(s, shape, held, retn))
  }

  ghost function OutPass(s: seq<IRAsmStmt>, shape: seq<seq<Chunk>>, retn: nat, i: nat): seq<Chunk>
    requires i < |shape| && i < |s|
  {
    Remap(shape[i], Out, |s[i].outOps| + |s[i].inOps|, retn + OutBase(s, i))
  }

  /** The finished text of statement i, operands replaced by block-wide numbers. */
  ghost function FinalStmt(s: seq<IRAsmStmt>, shape: seq<seq<Chunk>>, held: seq<nat>, retn: nat, i: nat): seq<Chunk>
    requires OkAt(s, shape, held, i)
  {
    FinalShape(shape[i], |s[i].outOps|, held[i], retn + OutBase(s, i), retn + InBase(s, i))
  }

  lemma FlattenStep<T>(xss: seq<seq<T>>, i: nat)
    requires i < |xss|
    ensures Flatten(xss[..i + 1]) == Flatten(xss[..i]) + xss[i]
  {
    assert xss[..i + 1][..i] == xss[..i];
  }

  lemma PermutedIsScan(ps: seq<Piece>, m: seq<nat>)
    requires IsArgMap(m) && Good(Holes(ps))
    requires |Args(ps)| <= 10 && forall i :: 0 <= i < |Args(ps)| ==> m[i] == ArgNumber(Args(ps), i)
    ensures forall k :: 0 <= k < |ps| ==> !Holes(ps)[k].Ref? && Permuted(ps)[k] == PermuteChunk(Holes(ps)[k], m)
  {
    forall k | 0 <= k < |ps| ensures Permuted(ps)[k] == PermuteChunk(Holes(ps)[k], m) {
      if ps[k].Operand? { ArgsAt(ps, k); }
    }
  }

  lemma EmittedOk(ps: seq<Piece>, outputcount: nat)
    requires Good(Permuted(ps))
    requires |Args(ps)| + |Updated(Select(Args(ps), Out), |Select(Args(ps), Out)|)| <= 10
    ensures AllOk([Emitted(ps, outputcount)], [Permuted(ps)], [|Select(Args(ps), In)|])
  {
    var args := Args(ps);
    PermutedDense(ps);
    SelectSize(args, Out);
    SelectSize(args, In);
    CountSplit(args, |args|);
  }
}

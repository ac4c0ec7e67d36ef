/**
  The two command-line tokenisers compared: response files (response.cpp) and
  DFLAGS (ldmd.cpp).  On texts without comments and line breaks they agree, up to
  empty arguments, exactly if no quote makes the response-file reader look back at
  backslashes an earlier quote has already halved.
 */
module TokeniserAgreement {
  import opened ResponseFile
  import opened EnvVarFlags

  function NonEmpty(ts: seq<string>): seq<string> {
    if ts == [] then [] else Emit(ts[0]) + NonEmpty(ts[1..])
  }

  lemma NonEmptyCons(t: string, ts: seq<string>)
    ensures NonEmpty([t] + ts) == Emit(t) + NonEmpty(ts)
  {
    assert ([t] + ts)[1..] == ts;
  }

  ghost predicate Ordinary(s: string) {
    forall i :: 0 <= i < |s| ==> s[i] != '#' && (IsSpace(s[i]) ==> IsBlank(s[i]))
  }

  /**
    slash: backslashes just read; armed: behind a quote that left some of its backslashes in the
    argument, with only backslashes read since.  No quote may come up while armed.
   */
  predicate NoReread(s: string, slash: nat, armed: bool) {
    if s == "" then true
    else if s[0] == DQ then !armed && NoReread(s[1..], 0, slash > 0 && slash % 2 == 0)
    else if s[0] == BS then NoReread(s[1..], slash + 1, armed)
    else NoReread(s[1..], 0, false)
  }

  lemma {:induction false} TrailingCut(arg: string, c: nat)
    requires c <= Trailing(arg)
    ensures Trailing(arg[..|arg| - c]) == Trailing(arg) - c
  {
    if c == 0 {
      assert arg[..|arg| - 0] == arg;
    } else {
      var a' := arg[..|arg| - 1];
      TrailingCut(a', c - 1);
      assert a'[..|a'| - (c - 1)] == arg[..|arg| - c];
    }
  }

  lemma TrailingSnoc(arg: string, c: char)
    ensures Trailing(arg + [c]) == if c == BS then Trailing(arg) + 1 else 0
  {
    assert (arg + [c])[..|arg|] == arg;
  }

  function ModeOf(instring: bool): Mode { if instring then Quoted else Outer }

  /** Without '#' it makes no difference whether a bare run has begun. */
  lemma RunIsOuter(s: string, arg: string)
    requires Ordinary(s)
    ensures Scan(s, Run, arg) == Scan(s, Outer, arg)
  {
  }

  /** Lock-step simulation of the two readers inside an argument. */
  lemma {:induction false} Simulate(s: string, arg: string, slash: nat, left: nat, armed: bool, instring: bool)
    requires Ordinary(s) && NoReread(s, slash, armed) && Trailing(arg) == slash + left && (left > 0 ==> armed)
    ensures NonEmpty(InArg(s, arg, slash, instring)) == Scan(s, ModeOf(instring), arg)
    decreases |s|, 1
  {
    if s == "" {
      NonEmptyCons(arg, []);
      assert [arg] + [] == [arg];
    } else {
      var c, rest := s[0], s[1..];
      if c == DQ {
        QuoteTogether(s, arg, slash, armed, instring);
      } else if IsBlank(c) && !instring {
        NonEmptyCons(arg, Between(rest));
        Agree(rest);
      } else {
        TrailingSnoc(arg, c);
        RunIsOuter(rest, arg + [c]);
        Simulate(rest, arg + [c], if c == BS then slash + 1 else 0, if c == BS then left else 0, c == BS && armed, instring);
      }
    }
  }

  lemma {:induction false} QuoteTogether(s: string, arg: string, slash: nat, armed: bool, instring: bool)
    requires s != "" && s[0] == DQ && Ordinary(s) && NoReread(s, slash, armed) && Trailing(arg) == slash
    ensures NonEmpty(InArg(s, arg, slash, instring)) == Scan(s, ModeOf(instring), arg)
    decreases |s|, 0
  {
    var rest := s[1..];
    if slash % 2 == 1 {
      var arg' := arg[..|arg| - slash / 2 - 1] + [DQ];
      TrailingSnoc(arg[..|arg| - slash / 2 - 1], DQ);
      Simulate(rest, arg', 0, 0, false, instring);
    } else {
      var arg' := arg[..|arg| - slash / 2];
      TrailingCut(arg, slash / 2);
      assert QuoteArg(arg) == arg';
      Simulate(rest, arg', 0, slash / 2, slash > 0, !instring);
    }
  }

  lemma {:induction false} Agree(s: string)
    requires Ordinary(s) && NoReread(s, 0, false)
    ensures NonEmpty(Between(s)) == Scan(s, Outer, "")
    decreases |s|, 2
  {
    if s != "" {
      if IsBlank(s[0]) { Agree(s[1..]); } else { Simulate(s, "", 0, 0, false, false); }
    }
  }

  // --------------------------------------------------------- why rereading always shows

  /** A backslash weighs 2 and a quote 1, so that halving n backslashes before a quote takes off n. */
  function WeightOf(c: char): nat { if c == BS then 2 else if c == DQ then 1 else 0 }

  function Weight(t: string): nat { if t == "" then 0 else Weight(t[..|t| - 1]) + WeightOf(t[|t| - 1]) }

  function Total(ts: seq<string>): nat { if ts == [] then 0 else Weight(ts[0]) + Total(ts[1..]) }

  /** What reading s adds to the weight when every backslash is halved at most once. */
  function Gain(s: string, slash: nat): int {
    if s == "" then 0
    else if s[0] == DQ then Gain(s[1..], 0) - slash
    else if s[0] == BS then Gain(s[1..], slash + 1) + 2
    else Gain(s[1..], 0)
  }

  lemma TotalCons(t: string, ts: seq<string>)
    ensures Total([t] + ts) == Weight(t) + Total(ts) && Total(Emit(t) + ts) == Weight(t) + Total(ts)
  {
    assert ([t] + ts)[1..] == ts;
    if t == "" { assert Emit(t) + ts == ts; }
  }

  lemma {:induction false} TotalNonEmpty(ts: seq<string>)
    ensures Total(NonEmpty(ts)) == Total(ts)
  {
    if ts != [] {
      TotalNonEmpty(ts[1..]);
      TotalCons(ts[0], NonEmpty(ts[1..]));
    }
  }

  lemma WeightSnoc(t: string, c: char)
    ensures Weight(t + [c]) == Weight(t) + WeightOf(c)
  {
    assert (t + [c])[..|t|] == t;
  }

  lemma {:induction false} WeightCut(arg: string, c: nat)
    requires c <= |arg| && EndsIn(arg, c)
    ensures Weight(arg[..|arg| - c]) == Weight(arg) - 2 * c
  {
    if c == 0 {
      assert arg[..|arg| - 0] == arg;
    } else {
      var a' := arg[..|arg| - 1];
      WeightCut(a', c - 1);
      assert a'[..|a'| - (c - 1)] == arg[..|arg| - c];
    }
  }

  lemma {:induction false} TrailingEnds(arg: string)
    ensures EndsIn(arg, Trailing(arg))
  {
    if Trailing(arg) > 0 { TrailingEnds(arg[..|arg| - 1]); }
  }

  lemma QuoteArgWeight(arg: string)
    ensures Weight(QuoteArg(arg)) == Weight(arg) - Trailing(arg)
    ensures Trailing(arg) > 0 && Unescaped(arg) ==> Trailing(QuoteArg(arg)) > 0
  {
    var n := Trailing(arg);
    var c := n / 2 + n % 2;
    TrailingEnds(arg);
    WeightCut(arg, c);
    TrailingCut(arg, c);
    if n % 2 == 1 {
      WeightSnoc(arg[..|arg| - c], DQ);
    } else {
      assert QuoteArg(arg) == arg[..|arg| - c];
    }
  }

  /** DFLAGS halves every backslash at most once. */
  lemma {:induction false} FlagsWeight(s: string, arg: string, slash: nat, instring: bool)
    requires EndsIn(arg, slash)
    ensures Total(InArg(s, arg, slash, instring)) == Weight(arg) + Gain(s, slash)
    decreases |s|, 1
  {
    if s == "" {
      TotalCons(arg, []);
      assert [arg] + [] == [arg];
    } else if s[0] == DQ {
      FlagsQuoteWeight(s, arg, slash, instring);
    } else if IsBlank(s[0]) && !instring {
      TotalCons(arg, Between(s[1..]));
      BetweenWeight(s[1..]);
    } else {
      WeightSnoc(arg, s[0]);
      FlagsWeight(s[1..], arg + [s[0]], if s[0] == BS then slash + 1 else 0, instring);
    }
  }

  /** At a quote as many backslashes go as stood before it, half of them for the others. */
  lemma HalvedWeight(arg: string, slash: nat)
    requires EndsIn(arg, slash)
    ensures Weight(arg[..|arg| - slash / 2]) == Weight(arg) - 2 * (slash / 2)
    ensures slash % 2 == 1 ==> Weight(arg[..|arg| - slash / 2 - 1] + [DQ]) == Weight(arg) - slash
  {
    WeightCut(arg, slash / 2);
    if slash % 2 == 1 {
      WeightCut(arg, slash / 2 + 1);
      WeightSnoc(arg[..|arg| - slash / 2 - 1], DQ);
    }
  }

  lemma {:induction false} FlagsQuoteWeight(s: string, arg: string, slash: nat, instring: bool)
    requires s != "" && s[0] == DQ && EndsIn(arg, slash)
    ensures Total(InArg(s, arg, slash, instring)) == Weight(arg) + Gain(s, slash)
    decreases |s|, 0
  {
    HalvedWeight(arg, slash);
    hide Weight, WeightOf, Total;
    if slash % 2 == 1 {
      FlagsWeight(s[1..], arg[..|arg| - slash / 2 - 1] + [DQ], 0, instring);
    } else {
      FlagsWeight(s[1..], arg[..|arg| - slash / 2], 0, !instring);
    }
  }

  lemma {:induction false} BetweenWeight(s: string)
    ensures Total(Between(s)) == Gain(s, 0)
    decreases |s|, 2
  {
    if s != "" {
      if IsBlank(s[0]) { BetweenWeight(s[1..]); } else { FlagsWeight(s, "", 0, false); }
    }
  }

  /** The response-file reader halves every backslash at least once, and some twice if it looks back. */
  lemma {:induction false} ScanWeight(s: string, arg: string, slash: nat, armed: bool, instring: bool)
    requires Ordinary(s) && slash <= Trailing(arg) && (armed ==> slash < Trailing(arg))
    ensures Total(Scan(s, ModeOf(instring), arg)) <= Weight(arg) + Gain(s, slash)
    ensures !NoReread(s, slash, armed) ==> Total(Scan(s, ModeOf(instring), arg)) < Weight(arg) + Gain(s, slash)
    decreases |s|, 1
  {
    if s == "" {
      TotalCons(arg, []);
      assert Emit(arg) + [] == Emit(arg);
    } else {
      var c, rest := s[0], s[1..];
      if c == DQ {
        ScanQuoteWeight(s, arg, slash, armed, instring);
      } else if IsBlank(c) && !instring {
        hide Weight, Total, Trailing;
        TotalCons(arg, Scan(rest, Outer, ""));
        ScanWeight(rest, "", 0, false, false);
      } else {
        hide Weight, Total, Trailing;
        TrailingSnoc(arg, c);
        WeightSnoc(arg, c);
        RunIsOuter(rest, arg + [c]);
        ScanWeight(rest, arg + [c], if c == BS then slash + 1 else 0, c == BS && armed, instring);
      }
    }
  }

  lemma {:induction false} ScanQuoteWeight(s: string, arg: string, slash: nat, armed: bool, instring: bool)
    requires Ordinary(s) && slash <= Trailing(arg) && (armed ==> slash < Trailing(arg)) && s != "" && s[0] == DQ
    ensures Total(Scan(s, ModeOf(instring), arg)) <= Weight(arg) + Gain(s, slash)
    ensures !NoReread(s, slash, armed) ==> Total(Scan(s, ModeOf(instring), arg)) < Weight(arg) + Gain(s, slash)
    decreases |s|, 0
  {
    QuoteArgWeight(arg);
    hide Weight, Total, Trailing, QuoteArg;
    var left := slash > 0 && slash % 2 == 0 && Trailing(arg) == slash;
    ScanWeight(s[1..], QuoteArg(arg), 0, left, if Unescaped(arg) then !instring else instring);
  }

  /**
    Response-file tokeniser and DFLAGS tokeniser give the same non-empty arguments exactly if
    no backslash left by a quote is looked at again.
   */
  lemma SameArgumentsIff(s: string)
    requires Ordinary(s)
    ensures Tokens(s) == NonEmpty(Flags(s)) <==> NoReread(s, 0, false)
  {
    if NoReread(s, 0, false) {
      Agree(s);
    } else {
      ScanWeight(s, "", 0, false, false);
      BetweenWeight(s);
      TotalNonEmpty(Flags(s));
    }
  }

  // ------------------------------------------------------------- about the condition

  /** Every backslash run directly before a quote has odd length. */
  ghost predicate OddRuns(s: string) {
    forall i :: 0 <= i < |s| && s[i] == DQ ==> Trailing(s[..i]) == 0 || Trailing(s[..i]) % 2 == 1
  }

  lemma {:induction false} OddRunsNoReread(pre: string, s: string)
    requires OddRuns(pre + s)
    ensures NoReread(s, Trailing(pre), false)
    decreases |s|
  {
    if s != "" {
      var c := s[0];
      assert (pre + s)[|pre|] == c && (pre + s)[..|pre|] == pre;
      TrailingSnoc(pre, c);
      assert pre + [c] + s[1..] == pre + s;
      OddRunsNoReread(pre + [c], s[1..]);
    }
  }

  function Reread(k: nat): string { Repeat(2 * k) + [DQ, DQ] }

  lemma {:induction false} RunRead(n: nat, slash: nat, rest: string)
    ensures NoReread(Repeat(n) + rest, slash, false) == NoReread(rest, slash + n, false)
    decreases n
  {
    if n == 0 {
      assert Repeat(n) + rest == rest;
    } else {
      var s := Repeat(n) + rest;
      assert s[0] == BS && s[1..] == Repeat(n - 1) + rest by { assert Repeat(n)[1..] == Repeat(n - 1); }
      RunRead(n - 1, slash + 1, rest);
    }
  }

  /** Whatever the number of halved backslashes, a quote right behind such a quote is read differently. */
  lemma RereadDiffers(k: nat)
    requires k > 0
    ensures Tokens(Reread(k)) != NonEmpty(Flags(Reread(k)))
  {
    RunRead(2 * k, 0, [DQ, DQ]);
    assert [DQ, DQ][1..] == [DQ];
    SameArgumentsIff(Reread(k));
  }
}

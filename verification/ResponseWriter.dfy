/**
  The Posix response-file writer of ResponseFile::setup (ldc/driver/args.cpp) and
  its round trip through the reader: exactly which argument lists survive.
 */
module ResponseWriter {
  import opened ResponseFile

  function Escape(a: string): string {
    if a == "" then ""
    else (if a[0] == BS || a[0] == DQ then [BS] else []) + [a[0]] + Escape(a[1..])
  }

  function Line(a: string): string { [DQ] + Escape(a) + [DQ, LF] }

  function Written(args: seq<string>): string {
    if args == [] then "" else Line(args[0]) + Written(args[1..])
  }

  lemma {:induction false} EscapeAppend(a: string, b: string)
    ensures Escape(a + b) == Escape(a) + Escape(b)
  {
    if a == "" {
      assert a + b == b;
    } else {
      assert (a + b)[1..] == a[1..] + b;
      EscapeAppend(a[1..], b);
    }
  }

  lemma {:induction false} WrittenAppend(a: seq<string>, b: seq<string>)
    ensures Written(a + b) == Written(a) + Written(b)
  {
    if a == [] {
      assert a + b == b;
    } else {
      assert (a + b)[1..] == a[1..] + b;
      WrittenAppend(a[1..], b);
    }
  }

  lemma NothingWritten()
    ensures Written([]) == ""
  {
  }

  lemma OneWritten(arg: string)
    ensures Written([arg]) == Line(arg)
  {
    assert Line(arg) + "" == Line(arg);
  }

  /** The nested loops that build the file contents. */
  method WriteContent(args: seq<string>) returns (content: string)
    ensures content == Written(args)
  {
    hide Written;
    content := "";
    NothingWritten();
    for i := 0 to |args|
      invariant content == Written(args[..i])
    {
      var arg := args[i];
      ghost var before := content;
      content := content + [DQ];
      for j := 0 to |arg|
        invariant content == before + [DQ] + Escape(arg[..j])
      {
        EscapeAppend(arg[..j], [arg[j]]);
        assert arg[..j] + [arg[j]] == arg[..j + 1];
        var c := arg[j];
        if c == BS || c == DQ { content := content + [BS]; }
        content := content + [c];
      }
      assert arg[..|arg|] == arg;
      content := content + [DQ, LF];
      assert content == before + Line(arg);
      WrittenAppend(args[..i], [arg]);
      OneWritten(arg);
      assert args[..i] + [arg] == args[..i + 1];
    }
    assert args[..|args|] == args;
  }

  // -------------------------------------------------------- what the reader makes of it

  /** Reading back an argument, m backslashes pending: they are halved only before a quote or the end. */
  function ReadBack(a: string, m: nat): string {
    if a == "" then Repeat(m)
    else if a[0] == BS then ReadBack(a[1..], m + 1)
    else if a[0] == DQ then Repeat(m) + [DQ] + ReadBack(a[1..], 0)
    else Repeat(2 * m) + [a[0]] + ReadBack(a[1..], 0)
  }

  predicate Solid(base: string) { base == "" || base[|base| - 1] != BS }

  lemma {:induction false} TrailingRepeat(base: string, n: nat)
    requires Solid(base)
    ensures Trailing(base + Repeat(n)) == n
  {
    var s := base + Repeat(n);
    if n == 0 {
      assert s == base;
    } else {
      TrailingRepeat(base, n - 1);
      assert s[..|s| - 1] == base + Repeat(n - 1);
    }
  }

  lemma {:induction false} RepeatAppend(m: nat, n: nat)
    ensures Repeat(m) + Repeat(n) == Repeat(m + n)
  {
    if n > 0 { RepeatAppend(m, n - 1); }
  }

  lemma QuoteAfter(base: string, n: nat)
    requires Solid(base)
    ensures Unescaped(base + Repeat(n)) == (n % 2 == 0)
    ensures QuoteArg(base + Repeat(n)) == base + Repeat(n / 2) + if n % 2 == 1 then [DQ] else []
  {
    TrailingRepeat(base, n);
    RepeatAppend(n / 2, n - n / 2);
    var s := base + Repeat(n);
    assert s == base + Repeat(n / 2) + Repeat(n - n / 2);
    assert s[..|s| - (n / 2 + n % 2)] == base + Repeat(n / 2);
  }

  lemma PlainStep(c: char, rest: string, arg: string)
    requires c != DQ && c != LF && c != CR
    ensures Scan([c] + rest, Quoted, arg) == Scan(rest, Quoted, arg + [c])
  {
    assert ([c] + rest)[1..] == rest;
  }

  lemma QuoteStep(rest: string, base: string, n: nat)
    requires Solid(base)
    ensures Scan([DQ] + rest, Quoted, base + Repeat(n))
         == Scan(rest, if n % 2 == 0 then Outer else Quoted, base + Repeat(n / 2) + if n % 2 == 1 then [DQ] else [])
  {
    assert ([DQ] + rest)[1..] == rest;
    QuoteAfter(base, n);
  }

  lemma ReadBackslash(rest: string, base: string, m: nat)
    ensures Scan([BS, BS] + rest, Quoted, base + Repeat(2 * m)) == Scan(rest, Quoted, base + Repeat(2 * (m + 1)))
  {
    hide Scan;
    var arg := base + Repeat(2 * m);
    PlainStep(BS, [BS] + rest, arg);
    PlainStep(BS, rest, arg + [BS]);
    assert [BS, BS] + rest == [BS] + ([BS] + rest);
    assert arg + [BS] + [BS] == base + Repeat(2 * m + 1 + 1);
  }

  lemma ReadQuote(rest: string, base: string, m: nat)
    requires Solid(base)
    ensures Scan([BS, DQ] + rest, Quoted, base + Repeat(2 * m)) == Scan(rest, Quoted, base + Repeat(m) + [DQ])
  {
    hide Scan;
    PlainStep(BS, [DQ] + rest, base + Repeat(2 * m));
    assert [BS, DQ] + rest == [BS] + ([DQ] + rest);
    assert base + Repeat(2 * m) + [BS] == base + Repeat(2 * m + 1);
    QuoteStep(rest, base, 2 * m + 1);
  }

  function NextBase(a: string, base: string, m: nat): string
    requires a != ""
  {
    base + (if a[0] == DQ then Repeat(m) else Repeat(2 * m)) + [a[0]]
  }

  lemma NextBaseReads(a: string, base: string, m: nat)
    requires a != "" && a[0] != BS
    ensures NextBase(a, base, m) + ReadBack(a[1..], 0) == base + ReadBack(a, m)
  {
    var r, x := ReadBack(a[1..], 0), if a[0] == DQ then Repeat(m) else Repeat(2 * m);
    assert ReadBack(a, m) == x + [a[0]] + r;
    assert base + x + [a[0]] + r == base + (x + [a[0]] + r);
  }

  lemma EscapeFirst(a: string, tail: string)
    requires a != ""
    ensures a[0] == DQ ==> Escape(a) + tail == [BS, DQ] + (Escape(a[1..]) + tail)
    ensures a[0] != BS && a[0] != DQ ==> Escape(a) + tail == [a[0]] + (Escape(a[1..]) + tail)
  {
    hide Escape;
    Regroup([BS, DQ], Escape(a[1..]), tail);
    Regroup([a[0]], Escape(a[1..]), tail);
    EscapeOne(a);
  }

  lemma EscapeOne(a: string)
    requires a != ""
    ensures a[0] == DQ ==> Escape(a) == [BS, DQ] + Escape(a[1..])
    ensures a[0] != BS && a[0] != DQ ==> Escape(a) == [a[0]] + Escape(a[1..])
  {
  }

  lemma Regroup(x: string, y: string, z: string)
    ensures (x + y) + z == x + (y + z)
  {
  }

  /** The first character of an argument that does not start with a backslash. */
  lemma ReadFirst(a: string, base: string, m: nat, tail: string)
    requires a != "" && a[0] != BS && Clean(a) && Solid(base)
    ensures Scan(Escape(a) + tail, Quoted, base + Repeat(2 * m)) == Scan(Escape(a[1..]) + tail, Quoted, NextBase(a, base, m))
  {
    hide Scan, Escape, Repeat, Solid;
    var s' := Escape(a[1..]) + tail;
    EscapeFirst(a, tail);
    if a[0] == DQ {
      ReadQuote(s', base, m);
    } else {
      assert a[0] in a;
      PlainStep(a[0], s', base + Repeat(2 * m));
    }
  }

  /** One written argument in quotes, read up to and including the closing quote. */
  lemma {:induction false} QuotedRead(a: string, base: string, m: nat, rest: string)
    requires Clean(a) && Solid(base)
    ensures Scan(Escape(a) + ([DQ] + rest), Quoted, base + Repeat(2 * m)) == Scan(rest, Outer, base + ReadBack(a, m))
    decreases |a|
  {
    hide Scan;
    if a == "" {
      assert Escape(a) + ([DQ] + rest) == [DQ] + rest;
      QuoteStep(rest, base, 2 * m);
      assert base + Repeat(m) + [] == base + Repeat(m);
    } else if a[0] == BS {
      var s' := Escape(a[1..]) + ([DQ] + rest);
      assert Escape(a) + ([DQ] + rest) == [BS, BS] + s';
      ReadBackslash(s', base, m);
      QuotedRead(a[1..], base, m + 1, rest);
    } else {
      ReadFirst(a, base, m, [DQ] + rest);
      NextBaseReads(a, base, m);
      var next := NextBase(a, base, m);
      assert next + Repeat(2 * 0) == next;
      QuotedRead(a[1..], next, 0, rest);
    }
  }

  lemma LineRead(a: string, rest: string)
    requires Clean(a)
    ensures Tokens(Line(a) + rest) == Emit(ReadBack(a, 0)) + Tokens(rest)
  {
    var s := Line(a) + rest;
    assert s == [DQ] + (Escape(a) + ([DQ] + ([LF] + rest)));
    assert s[1..] == Escape(a) + ([DQ] + ([LF] + rest));
    QuoteAfter("", 0);
    assert "" + Repeat(0) == "";
    QuotedRead(a, "", 0, [LF] + rest);
    assert "" + ReadBack(a, 0) == ReadBack(a, 0);
    assert ([LF] + rest)[1..] == rest;
  }

  function ReadAll(args: seq<string>): seq<string> {
    if args == [] then [] else Emit(ReadBack(args[0], 0)) + ReadAll(args[1..])
  }

  lemma {:induction false} WrittenRead(args: seq<string>)
    requires forall a :: a in args ==> Clean(a)
    ensures Tokens(Written(args)) == ReadAll(args)
  {
    if args != [] {
      LineRead(args[0], Written(args[1..]));
      WrittenRead(args[1..]);
    }
  }

  // ------------------------------------------------------------------- the round trip

  /** Every backslash is followed by another one, by a quote, or by the end of the argument. */
  ghost predicate RunsEndAtQuote(a: string) {
    forall i :: 0 <= i < |a| - 1 && a[i] == BS ==> a[i + 1] == BS || a[i + 1] == DQ
  }

  ghost predicate Survives(a: string) { a != "" && Clean(a) && RunsEndAtQuote(a) }

  /** m pending backslashes are kept as they are. */
  ghost predicate Exact(a: string, m: nat) {
    RunsEndAtQuote(a) && (m == 0 || a == "" || a[0] == BS || a[0] == DQ)
  }

  lemma {:induction false} ReadBackExact(a: string, m: nat)
    requires Exact(a, m)
    ensures ReadBack(a, m) == Repeat(m) + a
    decreases |a|
  {
    if a != "" {
      RunsTail(a);
      if a[0] == BS {
        ReadBackExact(a[1..], m + 1);
        assert Repeat(m + 1) + a[1..] == Repeat(m) + a;
      } else {
        ReadBackExact(a[1..], 0);
        assert Repeat(0) + a[1..] == a[1..];
        assert m == 0 || a[0] == DQ;
        assert Repeat(m) + [a[0]] + a[1..] == Repeat(m) + a;
      }
    }
  }

  lemma {:induction false} ReadBackGrows(a: string, m: nat)
    ensures |ReadBack(a, m)| >= |a| + m && (!Exact(a, m) ==> |ReadBack(a, m)| > |a| + m)
    decreases |a|
  {
    if a != "" {
      RunsTail(a);
      ReadBackGrows(a[1..], if a[0] == BS then m + 1 else 0);
    }
  }

  lemma RunsTail(a: string)
    requires a != ""
    ensures RunsEndAtQuote(a) <==> RunsEndAtQuote(a[1..]) && (a[0] == BS ==> |a| == 1 || a[1] == BS || a[1] == DQ)
  {
    var t := a[1..];
    if RunsEndAtQuote(t) && (a[0] == BS ==> |a| == 1 || a[1] == BS || a[1] == DQ) {
      forall i | 0 <= i < |a| - 1 && a[i] == BS ensures a[i + 1] == BS || a[i + 1] == DQ {
        if i > 0 { assert t[i - 1] == a[i] && t[i] == a[i + 1]; }
      }
    }
    if RunsEndAtQuote(a) {
      forall i | 0 <= i < |t| - 1 && t[i] == BS ensures t[i + 1] == BS || t[i + 1] == DQ {
        assert a[i + 1] == t[i] && a[i + 2] == t[i + 1];
      }
    }
  }

  lemma {:induction false} ReadAllExact(args: seq<string>)
    requires forall a :: a in args ==> a != "" && Clean(a)
    ensures ReadAll(args) == args <==> forall a :: a in args ==> Survives(a)
  {
    if args != [] {
      var a, rest := args[0], args[1..];
      assert args == [a] + rest && forall x :: x in rest ==> x in args;
      ReadAllExact(rest);
      assert a in args;
      HeadExact(a);
      var r := ReadBack(a, 0);
      assert ReadAll(args) == [r] + ReadAll(rest);
      assert ReadAll(args) == args <==> r == a && ReadAll(rest) == rest by {
        assert ([r] + ReadAll(rest))[0] == r && ([r] + ReadAll(rest))[1..] == ReadAll(rest);
      }
    }
  }

  lemma HeadExact(a: string)
    requires a != "" && Clean(a)
    ensures ReadBack(a, 0) != "" && (ReadBack(a, 0) == a <==> Survives(a))
  {
    assert |a| > 0;
    ReadBackGrows(a, 0);
    if RunsEndAtQuote(a) {
      ReadBackExact(a, 0);
      assert Repeat(0) + a == a;
    }
  }

  /** Writing and reading give back the same arguments exactly if every argument survives. */
  lemma RoundTrip(args: seq<string>)
    ensures Tokens(Written(args)) == args <==> forall a :: a in args ==> Survives(a)
  {
    TokensClean(Written(args), Outer, "");
    if forall a :: a in args ==> a != "" && Clean(a) {
      WrittenRead(args);
      ReadAllExact(args);
    }
  }
}

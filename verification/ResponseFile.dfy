/**
  The response-file tokeniser (ldc/driver/response.cpp): `Tokens` is the pure
  reading of a text, the methods are the stream loops of the source.
 */
module ResponseFile {

  const BS := '\\'
  const DQ := '"'
  const LF := '\n'
  const CR := '\r'

  predicate IsSpace(c: char) {
    c == ' ' || c == '\t' || c == LF || c == CR || c as int == 11 || c as int == 12
  }

  // ------------------------------------------------------------ the backslash rule

  /** Number of backslashes at the end of the argument collected so far. */
  function Trailing(arg: string): (n: nat)
    ensures n <= |arg|
  {
    if arg == "" || arg[|arg| - 1] != BS then 0 else Trailing(arg[..|arg| - 1]) + 1
  }

  function Repeat(n: nat): (s: string)
    ensures |s| == n && forall k :: 0 <= k < n ==> s[k] == BS
  {
    if n == 0 then "" else Repeat(n - 1) + [BS]
  }

  /** A quote after an odd number of backslashes is literal; pairs of backslashes are halved. */
  function QuoteArg(arg: string): string {
    var n := Trailing(arg);
    arg[..|arg| - (n / 2 + n % 2)] + if n % 2 == 1 then [DQ] else []
  }

  predicate Unescaped(arg: string) { Trailing(arg) % 2 == 0 }

  method ApplyBackslashRule(arg: string) returns (unescaped: bool, r: string)
    ensures r == QuoteArg(arg) && unescaped == Unescaped(arg)
  {
    var it := |arg|;
    assert arg[..it] == arg;
    while it > 0 && arg[it - 1] == BS
      invariant 0 <= it <= |arg| && Trailing(arg) == |arg| - it + Trailing(arg[..it])
    {
      assert arg[..it][..it - 1] == arg[..it - 1];
      it := it - 1;
    }
    assert arg[..it] == "" || arg[..it][it - 1] != BS;
    var numbs := |arg| - it;
    var escaped := numbs % 2;
    r := arg[..|arg| - (numbs / 2 + escaped)];
    if escaped == 1 { r := r + [DQ]; }
    unescaped := escaped == 0;
  }

  // -------------------------------------------------------------- the pure reading

  /** Where the reader is: between tokens or behind a quote, inside a bare run, in quotes, in a comment. */
  datatype Mode = Outer | Run | Quoted | Comment

  function Emit(arg: string): seq<string> { if arg == "" then [] else [arg] }

  function Scan(s: string, mode: Mode, arg: string): seq<string> {
    if s == "" then Emit(arg)
    else
      var c, rest := s[0], s[1..];
      match mode
      case Comment => Scan(rest, if c == LF || c == CR then Outer else Comment, arg)
      case Quoted =>
        if c == DQ then Scan(rest, if Unescaped(arg) then Outer else Quoted, QuoteArg(arg))
        else if c == LF then Emit(arg) + Scan(rest, Outer, "")
        else if c == CR then Scan(rest, Quoted, arg)
        else Scan(rest, Quoted, arg + [c])
      case _ =>
        if IsSpace(c) then Emit(arg) + Scan(rest, Outer, "")
        else if c == DQ then Scan(rest, if Unescaped(arg) then Quoted else Outer, QuoteArg(arg))
        else if c == '#' && mode == Outer then Scan(rest, Comment, arg)
        else Scan(rest, Run, arg + [c])
  }

  function Tokens(s: string): seq<string> { Scan(s, Outer, "") }

  // ----------------------------------------------------------------- the stream loops

  /** is >> std::ws */
  method SkipSpace(s: string, pos0: nat) returns (pos: nat)
    requires pos0 <= |s|
    ensures pos0 <= pos <= |s| && Scan(s[pos..], Outer, "") == Scan(s[pos0..], Outer, "")
  {
    pos := pos0;
    while pos < |s| && IsSpace(s[pos])
      invariant pos0 <= pos <= |s| && Scan(s[pos..], Outer, "") == Scan(s[pos0..], Outer, "")
    {
      assert s[pos..][1..] == s[pos + 1..];
      pos := pos + 1;
    }
  }

  /** dealWithQuote, called behind the opening quote. */
  method DealWithQuote(s: string, pos0: nat, arg0: string) returns (endsArg: bool, pos: nat, arg: string)
    requires pos0 <= |s|
    ensures pos0 <= pos <= |s|
    ensures Scan(s[pos0..], if Unescaped(arg0) then Quoted else Outer, QuoteArg(arg0))
         == if endsArg then Emit(arg) + Scan(s[pos..], Outer, "") else Scan(s[pos..], Outer, arg)
  {
    pos := pos0;
    var unescaped;
    unescaped, arg := ApplyBackslashRule(arg0);
    if !unescaped { return false, pos, arg; }
    while pos < |s|
      invariant pos0 <= pos <= |s|
      invariant Scan(s[pos..], Quoted, arg) == Scan(s[pos0..], Quoted, QuoteArg(arg0))
    {
      var c := s[pos];
      assert s[pos..][1..] == s[pos + 1..];
      pos := pos + 1;
      if c == DQ {
        unescaped, arg := ApplyBackslashRule(arg);
        if unescaped { return false, pos, arg; }
      } else if c == LF {
        return true, pos, arg;
      } else if c != CR {
        arg := arg + [c];
      }
    }
    return true, pos, arg;
  }

  method DealWithComment(s: string, pos0: nat, ghost arg: string) returns (pos: nat)
    requires pos0 <= |s|
    ensures pos0 <= pos <= |s| && Scan(s[pos..], Outer, arg) == Scan(s[pos0..], Comment, arg)
  {
    pos := pos0;
    while pos < |s|
      invariant pos0 <= pos <= |s| && Scan(s[pos..], Comment, arg) == Scan(s[pos0..], Comment, arg)
    {
      var c := s[pos];
      assert s[pos..][1..] == s[pos + 1..];
      pos := pos + 1;
      if c == LF || c == CR { return; }
    }
  }

  /** The rest of a bare run: up to a space, a quote or the end. */
  method ReadRun(s: string, pos0: nat, arg0: string) returns (pos: nat, arg: string)
    requires pos0 <= |s|
    ensures pos0 <= pos <= |s| && Scan(s[pos..], Outer, arg) == Scan(s[pos0..], Run, arg0)
  {
    pos, arg := pos0, arg0;
    while pos < |s| && !IsSpace(s[pos]) && s[pos] != DQ
      invariant pos0 <= pos <= |s| && Scan(s[pos..], Run, arg) == Scan(s[pos0..], Run, arg0)
    {
      assert s[pos..][1..] == s[pos + 1..];
      arg := arg + [s[pos]];
      pos := pos + 1;
    }
  }

  /** expand */
  method Expand(s: string) returns (expanded: seq<string>)
    ensures expanded == Tokens(s)
  {
    expanded := [];
    var arg := "";
    var pos := SkipSpace(s, 0);
    assert s[0..] == s;
    while pos < |s|
      invariant pos <= |s| && expanded + Scan(s[pos..], Outer, arg) == Tokens(s)
      decreases |s| - pos
    {
      var c := s[pos];
      ghost var left := Scan(s[pos..], Outer, arg);
      assert s[pos..][1..] == s[pos + 1..];
      pos := pos + 1;
      if IsSpace(c) {
        pos := SkipSpace(s, pos);
        assert left == Emit(arg) + Scan(s[pos..], Outer, "");
        expanded, arg := Push(expanded, arg, Scan(s[pos..], Outer, ""));
      } else if c == DQ {
        var endsArg;
        endsArg, pos, arg := DealWithQuote(s, pos, arg);
        if endsArg {
          expanded, arg := Push(expanded, arg, Scan(s[pos..], Outer, ""));
        }
      } else if c == '#' {
        pos := DealWithComment(s, pos, arg);
      } else {
        pos, arg := ReadRun(s, pos, arg + [c]);
      }
    }
    assert Scan(s[pos..], Outer, arg) == Emit(arg) + [];
    expanded, arg := Push(expanded, arg, []);
    assert expanded + [] == expanded;
  }

  /** if (!arg.empty()) { expanded.push_back(arg); arg.clear(); } */
  method Push(expanded: seq<string>, arg: string, ghost later: seq<string>) returns (r: seq<string>, cleared: string)
    ensures cleared == "" && r + later == expanded + (Emit(arg) + later)
  {
    if arg != "" { return expanded + [arg], ""; }
    return expanded, arg;
  }

  // ------------------------------------------------------------------ what comes out

  predicate Clean(arg: string) { LF !in arg && CR !in arg }

  lemma QuoteArgClean(arg: string)
    requires Clean(arg)
    ensures Clean(QuoteArg(arg))
  {
    var n := Trailing(arg);
    assert forall c :: c in arg[..|arg| - (n / 2 + n % 2)] ==> c in arg;
  }

  /** No token is empty and none holds a line break. */
  lemma {:induction false} TokensClean(s: string, mode: Mode, arg: string)
    requires Clean(arg)
    ensures forall t :: t in Scan(s, mode, arg) ==> t != "" && Clean(t)
  {
    if s != "" {
      var c, rest := s[0], s[1..];
      match mode
      case Comment => TokensClean(rest, if c == LF || c == CR then Outer else Comment, arg);
      case Quoted =>
        QuoteArgClean(arg);
        TokensClean(rest, if Unescaped(arg) then Outer else Quoted, QuoteArg(arg));
        TokensClean(rest, Outer, "");
        TokensClean(rest, Quoted, arg);
        if c != LF && c != CR { TokensClean(rest, Quoted, arg + [c]); }
      case _ =>
        QuoteArgClean(arg);
        TokensClean(rest, if Unescaped(arg) then Quoted else Outer, QuoteArg(arg));
        TokensClean(rest, Outer, "");
        TokensClean(rest, Comment, arg);
        if !IsSpace(c) { TokensClean(rest, Run, arg + [c]); }
    }
  }
}

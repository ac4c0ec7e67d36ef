/**
  appendEnvVar (ldc/driver/ldmd.cpp): DFLAGS is split in place, in one character
  buffer, by a read pointer and a write pointer.  The method below works on that
  buffer; `Flags` is the pure tokeniser it refines.
 */
module EnvVarFlags {
  import opened ResponseFile

  const NUL := 0 as char

  predicate IsBlank(c: char) { c == ' ' || c == '\t' }

  /** The argument being built ends in the `slash` backslashes just read. */
  predicate EndsIn(arg: string, slash: nat) {
    slash <= |arg| && forall k :: |arg| - slash <= k < |arg| ==> arg[k] == BS
  }

  function Between(s: string): seq<string>
    decreases |s|, 1
  {
    if s == "" then [] else if IsBlank(s[0]) then Between(s[1..]) else InArg(s, "", 0, false)
  }

  function InArg(s: string, arg: string, slash: nat, instring: bool): seq<string>
    requires slash <= |arg|
    decreases |s|, 0
  {
    if s == "" then [arg]
    else if s[0] == DQ then
      if slash % 2 == 1 then InArg(s[1..], arg[..|arg| - slash / 2 - 1] + [DQ], 0, instring)
      else InArg(s[1..], arg[..|arg| - slash / 2], 0, !instring)
    else if IsBlank(s[0]) && !instring then [arg] + Between(s[1..])
    else if s[0] == BS then InArg(s[1..], arg + [BS], slash + 1, instring)
    else InArg(s[1..], arg + [s[0]], 0, instring)
  }

  function Flags(s: string): seq<string> { Between(s) }

  // ------------------------------------------------------------------ the buffer

  /** Token j stands at starts[j], is NUL-terminated and lies below limit. */
  ghost predicate Stored(b: string, starts: seq<nat>, toks: seq<string>, j: nat, limit: nat) {
    && j < |starts| && j < |toks|
    && starts[j] + |toks[j]| < limit <= |b|
    && b[starts[j]..starts[j] + |toks[j]|] == toks[j] && b[starts[j] + |toks[j]|] == NUL && NUL !in toks[j]
  }

  ghost predicate AllStored(b: string, starts: seq<nat>, toks: seq<string>, limit: nat) {
    |starts| == |toks| && forall j: nat :: j < |toks| ==> Stored(b, starts, toks, j, limit)
  }

  lemma PrefixReads(b: string, b': string, limit: nat, i: nat, n: nat)
    requires i + n < limit <= |b| && limit <= |b'| && b'[..limit] == b[..limit]
    ensures b[i..i + n] == b'[i..i + n] && b[i + n] == b'[i + n]
  {
    var c := b[..limit];
    assert forall k :: 0 <= k < limit ==> b[k] == c[k] && b'[k] == b'[..limit][k];
  }

  /** Tokens below the limit do not see writes at or above it. */
  lemma StoredBelow(b: string, b': string, starts: seq<nat>, toks: seq<string>, limit: nat, limit': nat)
    requires AllStored(b, starts, toks, limit) && limit <= limit' <= |b'| && limit <= |b| && b'[..limit] == b[..limit]
    ensures AllStored(b', starts, toks, limit')
  {
    forall j: nat | j < |toks| ensures Stored(b', starts, toks, j, limit') {
      assert Stored(b, starts, toks, j, limit);
      var i, n := starts[j], |toks[j]|;
      PrefixReads(b, b', limit, i, n);
    }
  }

  lemma StoredSnoc(b: string, starts: seq<nat>, toks: seq<string>, start: nat, tok: string, limit: nat)
    requires AllStored(b, starts, toks, limit) && start + |tok| < limit <= |b| && NUL !in tok
    requires b[start..start + |tok|] == tok && b[start + |tok|] == NUL
    ensures AllStored(b, starts + [start], toks + [tok], limit)
  {
    var starts', toks' := starts + [start], toks + [tok];
    forall j: nat | j < |toks'| ensures Stored(b, starts', toks', j, limit) {
      if j < |toks| { assert Stored(b, starts, toks, j, limit); }
    }
  }

  /** The C string at position i. */
  function CString(b: string, i: nat): string
    decreases |b| - i
  {
    if i >= |b| || b[i] == NUL then "" else [b[i]] + CString(b, i + 1)
  }

  lemma {:induction false} CStringIs(b: string, i: nat, t: string)
    requires i + |t| < |b| && b[i..i + |t|] == t && b[i + |t|] == NUL && NUL !in t
    ensures CString(b, i) == t
    decreases |t|
  {
    if t != "" {
      assert b[i] == b[i..i + |t|][0] == t[0];
      assert b[i + 1..i + 1 + |t[1..]|] == b[i..i + |t|][1..] == t[1..];
      assert t[0] in t;
      CStringIs(b, i + 1, t[1..]);
    }
  }

  // --------------------------------------------------------------- the inner loop

  /**
    The inner loop between two characters: the unread part and everything in front of the argument
    are untouched, the write pointer is between the argument's start and the read pointer, and what
    has been written is the pure tokeniser's argument, ending in `slash` backslashes.
   */
  ghost predicate At(b: string, orig: string, env0: nat, n: nat, env: nat, p: nat, slash: nat, instring: bool) {
    && env0 <= p <= env <= n < |orig| == |b| && orig[n] == NUL && NUL !in orig[env0..n]
    && b[..env0] == orig[..env0] && b[env..] == orig[env..]
    && EndsIn(b[env0..p], slash) && NUL !in b[env0..p]
    && InArg(orig[env0..n], "", 0, false) == InArg(orig[env..n], b[env0..p], slash, instring)
  }

  lemma AtFirst(orig: string, env0: nat, n: nat)
    requires env0 < n < |orig| && orig[n] == NUL && NUL !in orig[env0..n]
    ensures At(orig, orig, env0, n, env0, env0, 0, false)
  {
    assert orig[env0..env0] == "";
  }

  lemma AtFacts(b: string, orig: string, env0: nat, n: nat, env: nat, p: nat, slash: nat, instring: bool)
    requires At(b, orig, env0, n, env, p, slash, instring)
    ensures env0 <= p <= env <= n < |b| == |orig| && slash <= p - env0
    ensures b[env] == orig[env] && (orig[env] == NUL <==> env == n)
  {
    assert b[env] == b[env..][0] && orig[env] == orig[env..][0];
    if env < n { assert orig[env0..n][env - env0] == orig[env]; }
  }

  lemma ReadNext(orig: string, n: nat, env: nat)
    requires env < n <= |orig|
    ensures orig[env..n] != "" && orig[env..n][0] == orig[env] && orig[env..n][1..] == orig[env + 1..n]
  {
  }

  /** Writing c at the write pointer, after stepping back `back` characters. */
  lemma Overwrite(b: string, orig: string, env0: nat, env: nat, p: nat, back: nat, c: char)
    requires env0 <= p <= env < |b| == |orig| && back <= p - env0
    requires b[..env0] == orig[..env0] && b[env..] == orig[env..]
    ensures var b', q := b[p - back := c], p - back;
      && b'[..env0] == orig[..env0] && b'[env + 1..] == orig[env + 1..]
      && b'[env0..q] == b[env0..p][..|b[env0..p]| - back] && b'[env0..q + 1] == b'[env0..q] + [c]
  {
    var b', q := b[p - back := c], p - back;
    assert b'[env + 1..] == b[env..][1..] && orig[env + 1..] == orig[env..][1..];
  }

  lemma PrefixHas(arg: string, k: int)
    requires 0 <= k <= |arg|
    ensures forall x :: x in arg[..k] ==> x in arg
  {
  }

  /** An ordinary character, or a backslash, is copied down. */
  lemma Copied(b: string, orig: string, env0: nat, n: nat, env: nat, p: nat, slash: nat, instring: bool, c: char)
    requires At(b, orig, env0, n, env, p, slash, instring) && env < n && c == orig[env] && c != DQ
    requires IsBlank(c) ==> instring
    ensures At(b[p := c], orig, env0, n, env + 1, p + 1, if c == BS then slash + 1 else 0, instring)
  {
    ReadNext(orig, n, env);
    Overwrite(b, orig, env0, env, p, 0, c);
    assert c in orig[env..n] && forall x :: x in orig[env..n] ==> x in orig[env0..n];
    var arg := b[env0..p];
    assert arg[..|arg| - 0] == arg;
  }

  /** A quote after an odd number of backslashes: drop half of them and one more, write the quote. */
  lemma EscapedQuote(b: string, orig: string, env0: nat, n: nat, env: nat, p: nat, slash: nat, instring: bool)
    requires At(b, orig, env0, n, env, p, slash, instring) && env < n && orig[env] == DQ && slash % 2 == 1
    ensures At(b[p - slash / 2 - 1 := DQ], orig, env0, n, env + 1, p - slash / 2, 0, instring)
  {
    ReadNext(orig, n, env);
    Overwrite(b, orig, env0, env, p, slash / 2 + 1, DQ);
    var arg := b[env0..p];
    PrefixHas(arg, |arg| - (slash / 2 + 1));
  }

  /** A quote after an even number: drop half of them, enter or leave the string. */
  lemma PlainQuote(b: string, orig: string, env0: nat, n: nat, env: nat, p: nat, slash: nat, instring: bool)
    requires At(b, orig, env0, n, env, p, slash, instring) && env < n && orig[env] == DQ && slash % 2 == 0
    ensures At(b, orig, env0, n, env + 1, p - slash / 2, 0, !instring)
  {
    ReadNext(orig, n, env);
    assert b[env + 1..] == b[env..][1..] && orig[env + 1..] == orig[env..][1..];
    var arg, q := b[env0..p], p - slash / 2;
    AtFacts(b, orig, env0, n, env, p, slash, instring);
    CutBack(b, env0, p, slash / 2);
    PrefixHas(arg, |arg| - slash / 2);
  }

  lemma CutBack(b: string, env0: nat, p: nat, k: nat)
    requires env0 + k <= p <= |b|
    ensures b[env0..p - k] == b[env0..p][..|b[env0..p]| - k]
  {
  }

  /** The end of the argument: its terminator goes where the write pointer is. */
  ghost predicate Ended(b: string, orig: string, env0: nat, n: nat, env: nat, tok: string) {
    && env0 + |tok| < env <= n + 1 <= |orig| == |b| && NUL !in tok
    && b[..env0] == orig[..env0] && b[env..] == orig[env..]
    && b[env0..env0 + |tok|] == tok && b[env0 + |tok|] == NUL
    && InArg(orig[env0..n], "", 0, false) == [tok] + if env == n + 1 then [] else Between(orig[env..n])
  }

  lemma Terminated(b: string, orig: string, env0: nat, n: nat, env: nat, p: nat, slash: nat, instring: bool)
    requires At(b, orig, env0, n, env, p, slash, instring)
    requires env == n || (IsBlank(orig[env]) && !instring)
    ensures Ended(b[p := NUL], orig, env0, n, env + 1, b[env0..p])
  {
    Overwrite(b, orig, env0, env, p, 0, NUL);
    var arg := b[env0..p];
    assert arg[..|arg| - 0] == arg;
    if env < n { ReadNext(orig, n, env); } else { assert orig[env..n] == "" && [arg] + [] == [arg]; }
  }

  /** case '"': drop half of the pending backslashes, then write the quote or toggle instring. */
  method HandleQuote(buf: array<char>, p0: nat, slash: nat, instring0: bool,
                     ghost orig: string, ghost env0: nat, ghost n: nat, ghost env: nat)
    returns (p: nat, instring: bool)
    requires At(buf[..], orig, env0, n, env, p0, slash, instring0) && env < n && orig[env] == DQ
    modifies buf
    ensures At(buf[..], orig, env0, n, env + 1, p, 0, instring)
  {
    ghost var b := buf[..];
    AtFacts(b, orig, env0, n, env, p0, slash, instring0);
    hide At;
    p, instring := p0 - slash / 2, instring0;
    if slash % 2 == 1 {
      EscapedQuote(b, orig, env0, n, env, p0, slash, instring0);
      p := p - 1;
      buf[p] := DQ;
      assert buf[..] == b[p0 - slash / 2 - 1 := DQ];
      p := p + 1;
    } else {
      PlainQuote(b, orig, env0, n, env, p0, slash, instring0);
      instring := !instring;
    }
  }

  /** The end of an argument: a NUL is written behind it. */
  method EndArg(buf: array<char>, p: nat, ghost slash: nat, ghost instring: bool,
                ghost orig: string, ghost env0: nat, ghost n: nat, ghost env: nat)
    requires At(buf[..], orig, env0, n, env, p, slash, instring)
    requires env == n || (IsBlank(orig[env]) && !instring)
    modifies buf
    ensures Ended(buf[..], orig, env0, n, env + 1, old(buf[env0..p]))
  {
    ghost var b := buf[..];
    Terminated(b, orig, env0, n, env, p, slash, instring);
    buf[p] := NUL;
    assert buf[..] == b[p := NUL];
  }

  /** The inner loop: one argument, starting at env0, written over what has been read. */
  method SplitArg(buf: array<char>, env0: nat, ghost n: nat) returns (env: nat, last: bool, ghost tok: string)
    requires env0 < n < buf.Length && buf[n] == NUL && NUL !in buf[..][env0..n]
    modifies buf
    ensures Ended(buf[..], old(buf[..]), env0, n, env, tok) && (last <==> env == n + 1)
  {
    env := env0;
    var p: nat, slash, instring := env0, 0, false;
    ghost var orig := buf[..];
    AtFirst(orig, env0, n);
    hide At, Ended, IsBlank;
    while true
      invariant At(buf[..], orig, env0, n, env, p, slash, instring)
      decreases n - env
    {
      ghost var b := buf[..];
      AtFacts(b, orig, env0, n, env, p, slash, instring);
      var c := buf[env];
      env := env + 1;
      if c == DQ {
        p, instring := HandleQuote(buf, p, slash, instring, orig, env0, n, env - 1);
        slash := 0;
      } else if IsBlank(c) && !instring {
        EndArg(buf, p, slash, instring, orig, env0, n, env - 1);
        return env, false, b[env0..p];
      } else if c == NUL {
        EndArg(buf, p, slash, instring, orig, env0, n, env - 1);
        return env, true, b[env0..p];
      } else {
        Copied(b, orig, env0, n, env - 1, p, slash, instring, c);
        slash := if c == BS then slash + 1 else 0;
        buf[p] := c;
        assert buf[..] == b[p := c];
        p := p + 1;
        assert At(buf[..], orig, env0, n, env, p, slash, instring);
      }
    }
  }

  // --------------------------------------------------------------- the outer loop

  /** The outer loop: the arguments emitted so far are in place below the read pointer. */
  ghost predicate Emitted(b: string, orig: string, n: nat, env: nat, args: seq<nat>, toks: seq<string>) {
    && env <= n < |b| == |orig| && orig[n] == NUL && NUL !in orig[..n]
    && b[env..] == orig[env..] && AllStored(b, args, toks, env)
    && Flags(orig[..n]) == toks + Between(orig[env..n])
  }

  lemma EmittedFirst(orig: string, n: nat)
    requires n < |orig| && orig[n] == NUL && NUL !in orig[..n]
    ensures Emitted(orig, orig, n, 0, [], [])
  {
    assert orig[..n] == orig[0..n];
  }

  lemma EmittedFacts(b: string, orig: string, n: nat, env: nat, args: seq<nat>, toks: seq<string>)
    requires Emitted(b, orig, n, env, args, toks)
    ensures env <= n < |b| == |orig| && b[env] == orig[env] && b[n] == NUL && (b[env] == NUL <==> env == n)
    ensures NUL !in b[env..n] && b[env..n] == orig[env..n]
  {
    assert b[env] == b[env..][0] && orig[env] == orig[env..][0];
    assert b[n] == b[env..][n - env] && orig[n] == orig[env..][n - env];
    assert b[env..n] == b[env..][..n - env] && orig[env..n] == orig[env..][..n - env];
    assert forall k :: env <= k < n ==> orig[k] == orig[..n][k];
    forall c | c in orig[env..n] ensures c in orig[..n] {
      var k :| 0 <= k < n - env && orig[env..n][k] == c;
      assert orig[..n][env + k] == c;
    }
  }

  lemma BlankSkipped(b: string, orig: string, n: nat, env: nat, args: seq<nat>, toks: seq<string>)
    requires Emitted(b, orig, n, env, args, toks) && env < n && IsBlank(orig[env])
    ensures Emitted(b, orig, n, env + 1, args, toks)
  {
    ReadNext(orig, n, env);
    assert b[env + 1..] == b[env..][1..] && orig[env + 1..] == orig[env..][1..];
    StoredBelow(b, b, args, toks, env, env + 1);
  }

  lemma ArgTaken(b: string, b': string, orig: string, n: nat, env: nat, env': nat, args: seq<nat>, toks: seq<string>, tok: string)
    requires Emitted(b, orig, n, env, args, toks) && env < n && !IsBlank(orig[env]) && Ended(b', b, env, n, env', tok)
    ensures env < env' <= n + 1 && AllStored(b', args + [env], toks + [tok], env')
    ensures env' == n + 1 ==> Flags(orig[..n]) == toks + [tok]
    ensures env' <= n ==> Emitted(b', orig, n, env', args + [env], toks + [tok])
  {
    EmittedFacts(b, orig, n, env, args, toks);
    ReadNext(orig, n, env);
    StoredBelow(b, b', args, toks, env, env');
    StoredSnoc(b', args, toks, env, tok, env');
    if env' <= n {
      assert b[env'..] == b[env..][env' - env..] && orig[env'..] == orig[env..][env' - env..];
      assert b[env'..n] == b[env..n][env' - env..] && orig[env'..n] == orig[env..n][env' - env..];
      assert toks + ([tok] + Between(orig[env'..n])) == toks + [tok] + Between(orig[env'..n]);
    }
  }

  lemma AllRead(b: string, args: seq<nat>, toks: seq<string>, limit: nat)
    requires AllStored(b, args, toks, limit)
    ensures |args| == |toks| && forall j :: 0 <= j < |args| ==> CString(b, args[j]) == toks[j]
  {
    forall j: nat | j < |args| ensures CString(b, args[j]) == toks[j] {
      assert Stored(b, args, toks, j, limit);
      CStringIs(b, args[j], toks[j]);
    }
  }

  /** appendEnvVar: the arguments are the C strings at the returned positions of the final buffer. */
  method AppendEnvVar(buf: array<char>, ghost n: nat) returns (args: seq<nat>)
    requires n < buf.Length && buf[n] == NUL && NUL !in buf[..n]
    modifies buf
    ensures |args| == |Flags(old(buf[..n]))|
    ensures forall j :: 0 <= j < |args| ==> CString(buf[..], args[j]) == Flags(old(buf[..n]))[j]
  {
    args := [];
    var env: nat := 0;
    ghost var orig, toks := buf[..], [];
    hide Emitted, Ended, AllStored, Flags, CString, IsBlank;
    assert orig[..n] == buf[..n];
    EmittedFirst(orig, n);
    while true
      invariant Emitted(buf[..], orig, n, env, args, toks)
      decreases n - env
    {
      ghost var b := buf[..];
      EmittedFacts(b, orig, n, env, args, toks);
      var c := buf[env];
      if IsBlank(c) {
        BlankSkipped(b, orig, n, env, args, toks);
        env := env + 1;
      } else if c == NUL {
        EmittedAtEnd(b, orig, n, args, toks);
        return;
      } else {
        var next, last;
        ghost var tok;
        next, last, tok := SplitArg(buf, env, n);
        ArgTaken(b, buf[..], orig, n, env, next, args, toks, tok);
        args, toks, env := args + [env], toks + [tok], next;
        if last {
          AllRead(buf[..], args, toks, n + 1);
          return;
        }
      }
    }
  }

  lemma EmittedAtEnd(b: string, orig: string, n: nat, args: seq<nat>, toks: seq<string>)
    requires Emitted(b, orig, n, n, args, toks)
    ensures Flags(orig[..n]) == toks && |args| == |toks|
    ensures forall j :: 0 <= j < |args| ==> CString(b, args[j]) == toks[j]
  {
    assert orig[n..n] == "";
    AllRead(b, args, toks, n);
  }
}

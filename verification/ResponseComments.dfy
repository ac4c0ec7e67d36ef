/**
  Comments in response files (ldc/driver/response.cpp): what is read is what would be read
  without them.
 */
module ResponseComments {
  import opened ResponseFile

  predicate EndsLine(c: char) { c == LF || c == CR }

  // ------------------------------------------------------------- texts without quotes

  /** The text behind the first line end. */
  function AfterLine(s: string): (r: string)
    ensures |r| <= |s|
  {
    if s == "" then "" else if EndsLine(s[0]) then s[1..] else AfterLine(s[1..])
  }

  /** Comments cut out: from a `#` at the beginning or behind a space to the end of its line. */
  function Strip(s: string, start: bool): string
    decreases |s|
  {
    if s == "" then ""
    else if start && s[0] == '#' then Strip(AfterLine(s[1..]), true)
    else [s[0]] + Strip(s[1..], IsSpace(s[0]))
  }

  function WordLength(s: string): (n: nat)
    ensures n <= |s| && forall k :: 0 <= k < n ==> !IsSpace(s[k])
    ensures n == |s| || IsSpace(s[n])
  {
    if s == "" || IsSpace(s[0]) then 0 else 1 + WordLength(s[1..])
  }

  /** Split at white space. */
  function Words(s: string): seq<string>
    decreases |s|
  {
    if s == "" then []
    else if IsSpace(s[0]) then Words(s[1..])
    else
      var n := WordLength(s);
      [s[..n]] + Words(s[n..])
  }

  lemma {:induction false} CommentRead(s: string, arg: string)
    ensures Scan(s, Comment, arg) == Scan(AfterLine(s), Outer, arg)
  {
    if s != "" && !EndsLine(s[0]) { CommentRead(s[1..], arg); }
  }

  lemma {:induction false} AfterLineIn(s: string, c: char)
    requires c !in s
    ensures c !in AfterLine(s)
  {
    if s != "" && !EndsLine(s[0]) { AfterLineIn(s[1..], c); }
  }

  lemma {:induction false} LengthOfWord(w: string, t: string)
    requires (forall k :: 0 <= k < |w| ==> !IsSpace(w[k])) && (t == "" || IsSpace(t[0]))
    ensures WordLength(w + t) == |w|
  {
    if w == "" {
      assert w + t == t;
    } else {
      assert (w + t)[1..] == w[1..] + t;
      LengthOfWord(w[1..], t);
    }
  }

  lemma FirstWord(w: string, t: string)
    requires w != "" && (forall k :: 0 <= k < |w| ==> !IsSpace(w[k])) && (t == "" || IsSpace(t[0]))
    ensures Words(w + t) == [w] + Words(t)
  {
    LengthOfWord(w, t);
    assert (w + t)[..|w|] == w && (w + t)[|w|..] == t;
  }

  /** Without quotes a response file is its words, comments cut out. */
  lemma {:induction false} BetweenWords(s: string)
    requires DQ !in s
    ensures Scan(s, Outer, "") == Words(Strip(s, true))
    decreases |s|, 1
  {
    if s != "" {
      var c, rest := s[0], s[1..];
      if IsSpace(c) {
        BetweenWords(rest);
        assert ([c] + Strip(rest, true))[1..] == Strip(rest, true);
        assert Emit("") + Scan(rest, Outer, "") == Scan(rest, Outer, "");
      } else if c == '#' {
        CommentRead(rest, "");
        AfterLineIn(rest, DQ);
        BetweenWords(AfterLine(rest));
      } else {
        InWord(rest, [c]);
        assert "" + [c] == [c];
      }
    }
  }

  lemma {:induction false} InWord(s: string, arg: string)
    requires DQ !in s && arg != "" && forall k :: 0 <= k < |arg| ==> !IsSpace(arg[k])
    ensures Scan(s, Run, arg) == Words(arg + Strip(s, false))
    decreases |s|, 0
  {
    if s == "" {
      FirstWord(arg, "");
      assert arg + "" == arg;
    } else {
      var c, rest := s[0], s[1..];
      if IsSpace(c) {
        BetweenWords(rest);
        var t := [c] + Strip(rest, true);
        FirstWord(arg, t);
        assert t[1..] == Strip(rest, true);
      } else {
        InWord(rest, arg + [c]);
        assert arg + [c] + Strip(rest, false) == arg + ([c] + Strip(rest, false));
      }
    }
  }

  lemma TokensAreWords(s: string)
    requires DQ !in s
    ensures Tokens(s) == Words(Strip(s, true))
  {
    BetweenWords(s);
  }

  // ------------------------------------------------------------------------- all texts

  /** However the text goes on: these tokens, and the reader in this mode with this argument begun. */
  ghost predicate Leads(pre: string, toks: seq<string>, mode: Mode, arg: string) {
    forall rest :: Tokens(pre + rest) == toks + Scan(rest, mode, arg)
  }

  /** Wherever the reader is between arguments or behind a quote, a comment might as well not be there. */
  lemma CommentCut(pre: string, toks: seq<string>, arg: string, body: string, end: char, post: string)
    requires Leads(pre, toks, Outer, arg) && EndsLine(end) && forall k :: 0 <= k < |body| ==> !EndsLine(body[k])
    ensures Tokens(pre + ("#" + body + [end] + post)) == Tokens(pre + post)
    ensures Tokens(pre + ("#" + body)) == Tokens(pre)
  {
    var c := "#" + body + [end] + post;
    assert c[1..] == body + ([end] + post) && ("#" + body)[1..] == body;
    CommentRead(body + ([end] + post), arg);
    LineSkipped(body, [end] + post);
    CommentRead(body, arg);
    LineSkipped(body, "");
    assert body + "" == body && pre + "" == pre && ([end] + post)[1..] == post;
  }

  lemma {:induction false} LineSkipped(body: string, t: string)
    requires forall k :: 0 <= k < |body| ==> !EndsLine(body[k])
    ensures AfterLine(body + t) == AfterLine(t)
  {
    if body == "" {
      assert body + t == t;
    } else {
      assert (body + t)[1..] == body[1..] + t;
      LineSkipped(body[1..], t);
    }
  }

  /** Behind white space that is not within quotes the reader is between arguments. */
  lemma {:induction false} SpaceLeads(pre: string, toks: seq<string>, mode: Mode, arg: string, c: char)
    requires Leads(pre, toks, mode, arg) && IsSpace(c) && (mode == Outer || mode == Run)
    ensures Leads(pre + [c], toks + Emit(arg), Outer, "")
  {
    forall rest ensures Tokens(pre + [c] + rest) == toks + Emit(arg) + Scan(rest, Outer, "") {
      assert pre + [c] + rest == pre + ([c] + rest) && ([c] + rest)[1..] == rest;
      assert toks + (Emit(arg) + Scan(rest, Outer, "")) == toks + Emit(arg) + Scan(rest, Outer, "");
    }
  }
}

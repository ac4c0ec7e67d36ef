/**
  Inline-asm templates as text (ldc/gen/asmstmt.cpp).

  A template is a string in which every operand is written as a hole `<<inK>>` or
  `<<outK>>` behind a prefix starting with `$`.  The passes of asmstmt.cpp work on
  the characters: one scan overwrites digits, two passes search for needles and
  splice numbers in.  `Chunk` is the structured reading of such a string and
  `Render` the string it stands for; the lemmas here say what the character-level
  primitives do to a rendered template.
 */
module AsmText {

  datatype Side = In | Out

  datatype Chunk =
    | Lit(text: string)
    | Hole(pre: string, side: Side, digit: nat)
    | Ref(pre: string, num: nat)

  const LT := '<'

  predicate IsDigit(c: char) { '0' <= c <= '9' }

  function DigitChar(d: nat): char
    requires d < 10
  {
    '0' + d as char
  }

  function DigitVal(c: char): (d: nat)
    requires IsDigit(c)
    ensures d < 10 && DigitChar(d) == c
  {
    (c - '0') as nat
  }

  function Decimal(n: nat): (s: string)
    ensures |s| > 0 && forall k :: 0 <= k < |s| ==> IsDigit(s[k])
  {
    if n < 10 then [DigitChar(n)] else Decimal(n / 10) + [DigitChar(n % 10)]
  }

  function Prefix(side: Side): string {
    if side == In then "<<in" else "<<out"
  }

  /** The text searched for by remap_args, for one digit. */
  function Needle(side: Side, d: nat): string
    requires d < 10
  {
    Prefix(side) + [DigitChar(d)] + ">>"
  }

  function RenderChunk(c: Chunk): string
    requires c.Hole? ==> c.digit < 10
  {
    match c
    case Lit(t) => t
    case Hole(pre, side, d) => pre + Needle(side, d)
    case Ref(pre, n) => pre + Decimal(n)
  }

  ghost predicate GoodPrefix(pre: string) {
    && |pre| > 0 && pre[0] == '$'
    && forall k :: 0 < k < |pre| ==> pre[k] != '$' && pre[k] != LT && !IsDigit(pre[k])
  }

  /** Text that cannot be taken for (the beginning of) a hole; it may hold other placeholders, such as `<<func>>`. */
  ghost predicate GoodText(t: string) {
    && '$' !in t && (t != "" ==> t[|t| - 1] != LT)
    && forall k: nat :: k < |t| ==> !OpensHole(t, k)
  }

  predicate OpensHole(t: string, k: nat) {
    k + 2 < |t| && t[k] == LT && t[k + 1] == LT && (t[k + 2] == 'i' || t[k + 2] == 'o')
  }

  /** Literal text holds no `$` and no hole; a prefix is `$` and a modifier. */
  ghost predicate GoodChunk(c: Chunk) {
    match c
    case Lit(t) => GoodText(t)
    case Hole(pre, _, d) => GoodPrefix(pre) && d < 10
    case Ref(pre, _) => GoodPrefix(pre)
  }

  ghost predicate Good(cs: seq<Chunk>) {
    forall k :: 0 <= k < |cs| ==> GoodChunk(cs[k])
  }

  ghost function Render(cs: seq<Chunk>): string
    requires Good(cs)
  {
    if cs == [] then "" else RenderChunk(cs[0]) + Render(cs[1..])
  }

  lemma {:induction false} RenderAppend(a: seq<Chunk>, b: seq<Chunk>)
    requires Good(a) && Good(b)
    ensures Good(a + b) && Render(a + b) == Render(a) + Render(b)
  {
    hide GoodChunk, RenderChunk;
    if a == [] {
      assert a + b == b;
    } else {
      RenderAppend(a[1..], b);
      assert (a + b)[1..] == a[1..] + b;
    }
  }

  // ---------------------------------------------------------------- searching

  predicate OccursAt(s: string, needle: string, p: nat) {
    p + |needle| <= |s| && s[p..p + |needle|] == needle
  }

  ghost predicate IsFirst(s: string, needle: string, p: nat) {
    OccursAt(s, needle, p) && forall q: nat :: q < p ==> !OccursAt(s, needle, q)
  }

  /** std::string::find: the first occurrence, or -1. */
  method Find(s: string, needle: string) returns (p: int)
    ensures p < 0 ==> p == -1 && forall q: nat :: !OccursAt(s, needle, q)
    ensures p >= 0 ==> IsFirst(s, needle, p)
  {
    var i := 0;
    while i + |needle| <= |s|
      invariant forall q: nat :: q < i ==> !OccursAt(s, needle, q)
    {
      if s[i..i + |needle|] == needle { return i; }
      i := i + 1;
    }
    return -1;
  }

  predicate Matches(c: Chunk, side: Side, d: nat) {
    c.Hole? && c.side == side && c.digit == d
  }

  ghost predicate ReadsAt(s: string, needle: string, p: nat) {
    p + |needle| <= |s| && forall k :: 0 <= k < |needle| ==> s[p + k] == needle[k]
  }

  lemma OccursReads(s: string, needle: string, p: nat)
    ensures OccursAt(s, needle, p) ==> ReadsAt(s, needle, p)
  {
    if OccursAt(s, needle, p) {
      var sub := s[p..p + |needle|];
      assert forall k :: 0 <= k < |needle| ==> sub[k] == s[p + k];
    }
  }

  lemma NeedleShape(side: Side, d: nat)
    requires d < 10
    ensures var n, w := Needle(side, d), |Prefix(side)|;
      && |n| == w + 3 && n[0] == LT && n[1] == LT && n[2] == (if side == In then 'i' else 'o')
      && n[w] == DigitChar(d) && forall k :: 2 <= k < |n| ==> n[k] != LT
  {
    var n := Needle(side, d);
    assert In == side ==> n[2] == 'i' && n[3] == 'n' && n[5] == '>' && n[6] == '>';
    assert Out == side ==> n[2] == 'o' && n[3] == 'u' && n[4] == 't' && n[6] == '>' && n[7] == '>';
  }

  lemma NoHoleInText(t: string, rest: string, side: Side, d: nat, q: nat)
    requires GoodText(t) && d < 10 && q < |t|
    ensures !OccursAt(t + rest, Needle(side, d), q)
  {
    var s, n := t + rest, Needle(side, d);
    OccursReads(s, n, q);
    NeedleShape(side, d);
    assert !OpensHole(t, q);
  }

  lemma RenderedHole(c: Chunk, rest: string)
    requires c.Hole? && c.digit < 10
    ensures var s, m, w := RenderChunk(c) + rest, Needle(c.side, c.digit), |c.pre|;
      && |RenderChunk(c)| == w + |m| && (forall k :: 0 <= k < w ==> s[k] == c.pre[k])
      && forall k :: w <= k < w + |m| ==> s[k] == m[k - w]
  {
  }

  lemma InHole(c: Chunk, rest: string, side: Side, d: nat, q: nat)
    requires GoodChunk(c) && c.Hole? && d < 10 && q < |RenderChunk(c)|
    ensures OccursAt(RenderChunk(c) + rest, Needle(side, d), q) ==> Matches(c, side, d) && q == |c.pre|
  {
    var s, n := RenderChunk(c) + rest, Needle(side, d);
    OccursReads(s, n, q);
    NeedleShape(side, d);
    NeedleShape(c.side, c.digit);
    RenderedHole(c, rest);
    hide OccursAt, Needle, RenderChunk;
    var m, w := Needle(c.side, c.digit), |c.pre|;
    if q == w {
      assert s[w + 2] == m[2];
      var v := |Prefix(side)|;
      assert c.side == side ==> s[w + v] == m[v];
    } else if q == w + 1 {
      assert s[q + 1] == m[2];
    }
  }

  /** A needle starts inside a rendered chunk only at the hole it names. */
  lemma OccursInChunk(c: Chunk, rest: string, side: Side, d: nat, q: nat)
    requires GoodChunk(c) && d < 10 && q < |RenderChunk(c)|
    ensures OccursAt(RenderChunk(c) + rest, Needle(side, d), q) ==> Matches(c, side, d) && q == |c.pre|
  {
    if c.Hole? {
      InHole(c, rest, side, d, q);
    } else if c.Lit? {
      NoHoleInText(c.text, rest, side, d, q);
    } else {
      var s := RenderChunk(c) + rest;
      OccursReads(s, Needle(side, d), q);
      NeedleShape(side, d);
      assert s[q] == RenderChunk(c)[q] && s[q] != LT;
    }
  }

  lemma OccursShift(a: string, b: string, needle: string, q: nat)
    ensures OccursAt(a + b, needle, |a| + q) <==> OccursAt(b, needle, q)
  {
    if |a| + q + |needle| <= |a| + |b| {
      assert (a + b)[|a| + q..|a| + q + |needle|] == b[q..q + |needle|];
    }
  }

  /** No chunk names the hole: the text search fails. */
  lemma {:induction false} NoOccurrence(cs: seq<Chunk>, side: Side, d: nat, q: nat)
    requires Good(cs) && d < 10
    requires forall k :: 0 <= k < |cs| ==> !Matches(cs[k], side, d)
    ensures !OccursAt(Render(cs), Needle(side, d), q)
  {
    if cs != [] && OccursAt(Render(cs), Needle(side, d), q) {
      var a, b := RenderChunk(cs[0]), Render(cs[1..]);
      if q < |a| {
        OccursInChunk(cs[0], b, side, d, q);
      } else {
        OccursShift(a, b, Needle(side, d), q - |a|);
        NoOccurrence(cs[1..], side, d, q - |a|);
      }
    }
  }

  lemma OccursBehind(pre: string, needle: string, rest: string)
    ensures OccursAt(pre + needle + rest, needle, |pre|)
  {
  }

  lemma HoleInChunk(c: Chunk, rest: string)
    requires c.Hole? && c.digit < 10
    ensures OccursAt(RenderChunk(c) + rest, Needle(c.side, c.digit), |c.pre|)
  {
    OccursBehind(c.pre, Needle(c.side, c.digit), rest);
  }

  lemma GoodCut(cs: seq<Chunk>, j: nat)
    requires Good(cs) && j < |cs|
    ensures Good(cs[..j]) && Good(cs[j..]) && Good(cs[j + 1..]) && GoodChunk(cs[j])
    ensures cs[..j] + cs[j..] == cs && cs[j..][1..] == cs[j + 1..] && cs[j..][0] == cs[j]
  {
  }

  lemma RenderFirst(cs: seq<Chunk>)
    requires Good(cs) && cs != []
    ensures Render(cs) == RenderChunk(cs[0]) + Render(cs[1..])
  {
  }

  lemma RenderAround(cs: seq<Chunk>, j: nat)
    requires Good(cs) && j < |cs|
    ensures Good(cs[..j]) && Good(cs[j + 1..]) && GoodChunk(cs[j])
    ensures Render(cs) == Render(cs[..j]) + (RenderChunk(cs[j]) + Render(cs[j + 1..]))
  {
    GoodCut(cs, j);
    RenderFirst(cs[j..]);
    hide Good, Render, RenderChunk;
    RenderAppend(cs[..j], cs[j..]);
  }

  lemma HoleOccurs(cs: seq<Chunk>, j: nat)
    requires Good(cs) && j < |cs| && cs[j].Hole?
    ensures var c, r := cs[j], RenderChunk(cs[j]) + Render(cs[j + 1..]);
      && Render(cs) == Render(cs[..j]) + r
      && OccursAt(r, Needle(c.side, c.digit), |c.pre|)
      && OccursAt(Render(cs), Needle(c.side, c.digit), |Render(cs[..j])| + |c.pre|)
  {
    var a, c, b := cs[..j], cs[j], cs[j + 1..];
    RenderAround(cs, j);
    HoleInChunk(c, Render(b));
    hide Render, Good, RenderChunk, OccursAt, Needle;
    OccursShift(Render(a), RenderChunk(c) + Render(b), Needle(c.side, c.digit), |c.pre|);
  }

  lemma FirstMatch(cs: seq<Chunk>, side: Side, d: nat, k: nat) returns (f: nat)
    requires k < |cs| && Matches(cs[k], side, d)
    ensures f <= k && Matches(cs[f], side, d) && forall j :: 0 <= j < f ==> !Matches(cs[j], side, d)
  {
    f := 0;
    while !Matches(cs[f], side, d)
      invariant f <= k && forall j :: 0 <= j < f ==> !Matches(cs[j], side, d)
      decreases k - f
    {
      f := f + 1;
    }
  }

  lemma HoleSize(c: Chunk)
    requires GoodChunk(c) && c.Hole?
    ensures |c.pre| < |RenderChunk(c)|
  {
  }

  /** What a text search means for the chunks: it finds the first hole of that name. */
  lemma SearchMeaning(cs: seq<Chunk>, side: Side, d: nat, p: int) returns (f: nat)
    requires Good(cs) && d < 10
    requires p < 0 ==> forall q: nat :: !OccursAt(Render(cs), Needle(side, d), q)
    requires p >= 0 ==> IsFirst(Render(cs), Needle(side, d), p)
    ensures p < 0 ==> forall k :: 0 <= k < |cs| ==> !Matches(cs[k], side, d)
    ensures p >= 0 ==> f < |cs| && Matches(cs[f], side, d) && p == |Render(cs[..f])| + |cs[f].pre|
    ensures p >= 0 ==> forall k :: 0 <= k < f ==> !Matches(cs[k], side, d)
  {
    hide Render, RenderChunk, OccursAt, GoodChunk;
    f := 0;
    if k :| 0 <= k < |cs| && Matches(cs[k], side, d) {
      f := FirstMatch(cs, side, d, k);
      HoleOccurs(cs, f);
      var n, a, c := Needle(side, d), Render(cs[..f]), cs[f];
      var r := RenderChunk(c) + Render(cs[f + 1..]);
      HoleSize(c);
      if 0 <= p < |a| {
        NeedleInsidePrefix(cs[..f], r, side, d, p);
      } else {
        OccursShift(a, r, n, p - |a|);
        OccursInChunk(c, Render(cs[f + 1..]), side, d, p - |a|);
      }
    } else if p >= 0 {
      NoOccurrence(cs, side, d, p);
    }
  }

  lemma {:induction false} NeedleInsidePrefix(a: seq<Chunk>, rest: string, side: Side, d: nat, q: nat)
    requires Good(a) && d < 10 && q < |Render(a)|
    requires forall k :: 0 <= k < |a| ==> !Matches(a[k], side, d)
    ensures !OccursAt(Render(a) + rest, Needle(side, d), q)
  {
    if OccursAt(Render(a) + rest, Needle(side, d), q) {
      var r, t := RenderChunk(a[0]), Render(a[1..]);
      assert Render(a) + rest == r + (t + rest);
      if q < |r| {
        OccursInChunk(a[0], t + rest, side, d, q);
      } else {
        OccursShift(r, t + rest, Needle(side, d), q - |r|);
        NeedleInsidePrefix(a[1..], rest, side, d, q - |r|);
      }
    }
  }
}

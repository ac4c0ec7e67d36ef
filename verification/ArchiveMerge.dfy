/**
  computeNewArchiveMembers (ldc/driver/archiver.cpp): the files named on the command line are
  merged into an existing archive.  A file replaces the old member with its base name, at the
  old position; files without such a member follow.  Names may repeat on both sides.
 */
module ArchiveMerge {

  type Path = string
  type Name = string
  type BaseName = Path -> Name

  datatype Out = Blank | Kept(position: nat) | New(path: Path)

  // ---------------------------------------------------------------- the files, by base name

  function CountName(ms: seq<Path>, base: BaseName, x: Name): nat {
    if ms == [] then 0 else (if base(ms[0]) == x then 1 else 0) + CountName(ms[1..], base, x)
  }

  /** The k-th file with base name x. */
  function Nth(ms: seq<Path>, base: BaseName, x: Name, k: nat): (p: Path)
    requires k < CountName(ms, base, x)
    ensures base(p) == x && p in ms
  {
    if base(ms[0]) != x then Nth(ms[1..], base, x, k)
    else if k == 0 then ms[0]
    else Nth(ms[1..], base, x, k - 1)
  }

  /** The files without the first used[x] ones of every base name x, in order. */
  function Left(ms: seq<Path>, base: BaseName, used: multiset<Name>): seq<Path> {
    if ms == [] then []
    else if base(ms[0]) in used then Left(ms[1..], base, used - multiset{base(ms[0])})
    else [ms[0]] + Left(ms[1..], base, used)
  }

  lemma {:induction false} NothingUsed(ms: seq<Path>, base: BaseName)
    ensures Left(ms, base, multiset{}) == ms
  {
    if ms != [] { NothingUsed(ms[1..], base); }
  }

  ghost predicate FirstWith(ms: seq<Path>, base: BaseName, x: Name, f: nat) {
    f < |ms| && base(ms[f]) == x && forall j :: 0 <= j < f ==> base(ms[j]) != x
  }

  ghost predicate NoneWith(ms: seq<Path>, base: BaseName, x: Name) {
    forall j :: 0 <= j < |ms| ==> base(ms[j]) != x
  }

  function Erase(ms: seq<Path>, f: nat): seq<Path>
    requires f < |ms|
  {
    ms[..f] + ms[f + 1..]
  }

  lemma FirstBehind(p: Path, tail: seq<Path>, base: BaseName, x: Name, f: nat)
    requires FirstWith([p] + tail, base, x, f)
    ensures base(p) == x ==> f == 0 && Erase([p] + tail, 0) == tail
    ensures base(p) != x ==> f > 0 && FirstWith(tail, base, x, f - 1) && ([p] + tail)[f] == tail[f - 1]
    ensures base(p) != x ==> Erase([p] + tail, f) == [p] + Erase(tail, f - 1)
  {
    var left := [p] + tail;
    assert left[0] == p && forall j :: 0 <= j < |tail| ==> tail[j] == left[j + 1];
    if base(p) != x {
      assert f > 0;
      assert Erase(left, f) == [p] + Erase(tail, f - 1);
    }
  }

  /** Among the files left, the first with base name x is the next one in turn; without it, one more is used. */
  lemma {:induction false} NextInTurn(ms: seq<Path>, base: BaseName, used: multiset<Name>, x: Name, f: nat)
    requires FirstWith(Left(ms, base, used), base, x, f)
    ensures used[x] < CountName(ms, base, x)
    ensures Left(ms, base, used)[f] == Nth(ms, base, x, used[x])
    ensures Erase(Left(ms, base, used), f) == Left(ms, base, used + multiset{x})
    decreases ms
  {
    hide FirstWith, Erase;
    if ms == [] {
      assert false by { NoFirst(base, x, f); }
    } else {
      var y, rest := base(ms[0]), ms[1..];
      if y in used {
        NextInTurn(rest, base, used - multiset{y}, x, f);
        assert used + multiset{x} - multiset{y} == used - multiset{y} + multiset{x};
      } else {
        FirstBehind(ms[0], Left(rest, base, used), base, x, f);
        if y == x {
          assert used + multiset{x} - multiset{x} == used;
        } else {
          NextInTurn(rest, base, used, x, f - 1);
        }
      }
    }
  }

  lemma NoFirst(base: BaseName, x: Name, f: nat)
    ensures !FirstWith([], base, x, f)
  {
  }

  /** No file with that name is left if and only if all have had their turn. */
  lemma {:induction false} NoneInTurn(ms: seq<Path>, base: BaseName, used: multiset<Name>, x: Name)
    requires NoneWith(Left(ms, base, used), base, x)
    ensures CountName(ms, base, x) <= used[x]
    ensures Left(ms, base, used + multiset{x}) == Left(ms, base, used)
    decreases ms
  {
    if ms != [] {
      var y, rest := base(ms[0]), ms[1..];
      var left := Left(ms, base, used);
      if y in used {
        NoneInTurn(rest, base, used - multiset{y}, x);
        assert used + multiset{x} - multiset{y} == used - multiset{y} + multiset{x};
      } else {
        var tail := Left(rest, base, used);
        assert left == [ms[0]] + tail && left[0] == ms[0];
        assert forall j :: 0 <= j < |tail| ==> tail[j] == left[j + 1];
        NoneInTurn(rest, base, used, x);
      }
    }
  }

  // ---------------------------------------------------------------------- the merged archive

  /** Old member i has a file whose turn it is. */
  predicate Replaced(olds: seq<Name>, ms: seq<Path>, base: BaseName, i: nat)
    requires i < |olds|
  {
    multiset(olds[..i])[olds[i]] < CountName(ms, base, olds[i])
  }

  /** What stands at old position i: with k earlier old members of its name, the k-th file of that name. */
  function AtOld(olds: seq<Name>, ms: seq<Path>, base: BaseName, i: nat): Out
    requires i < |olds|
  {
    if Replaced(olds, ms, base, i) then New(Nth(ms, base, olds[i], multiset(olds[..i])[olds[i]])) else Kept(i)
  }

  function News(ms: seq<Path>): (r: seq<Out>)
    ensures |r| == |ms|
  {
    seq(|ms|, i requires 0 <= i < |ms| => New(ms[i]))
  }

  function NewsIn(ret: seq<Out>): multiset<Path> {
    if ret == [] then multiset{}
    else NewsIn(ret[..|ret| - 1]) + (if ret[|ret| - 1].New? then multiset{ret[|ret| - 1].path} else multiset{})
  }

  function KeptIn(ret: seq<Out>): nat {
    if ret == [] then 0 else KeptIn(ret[..|ret| - 1]) + (if ret[|ret| - 1].Kept? then 1 else 0)
  }

  lemma NewsInPush(ret: seq<Out>, o: Out)
    ensures NewsIn(ret + [o]) == NewsIn(ret) + (if o.New? then multiset{o.path} else multiset{})
    ensures KeptIn(ret + [o]) == KeptIn(ret) + (if o.Kept? then 1 else 0)
  {
    assert (ret + [o])[..|ret|] == ret;
  }

  lemma NewsPush(ret: seq<Out>, ms: seq<Path>, p: Path)
    ensures ret + News(ms + [p]) == (ret + News(ms)) + [New(p)]
  {
  }

  lemma {:induction false} NewsInNews(ret: seq<Out>, ms: seq<Path>)
    ensures NewsIn(ret + News(ms)) == NewsIn(ret) + multiset(ms) && KeptIn(ret + News(ms)) == KeptIn(ret)
    decreases ms
  {
    if ms == [] {
      assert ret + News(ms) == ret;
    } else {
      hide NewsIn, KeptIn, News;
      var n := |ms| - 1;
      NewsInNews(ret, ms[..n]);
      assert ms == ms[..n] + [ms[n]];
      NewsPush(ret, ms[..n], ms[n]);
      NewsInPush(ret + News(ms[..n]), New(ms[n]));
    }
  }

  lemma EraseConserves(ms: seq<Path>, f: nat)
    requires f < |ms|
    ensures multiset(ms) == multiset(Erase(ms, f)) + multiset{ms[f]}
  {
    assert ms == ms[..f] + [ms[f]] + ms[f + 1..];
  }

  ghost predicate AllReadable(ms: seq<Path>, readable: set<Path>) {
    forall i :: 0 <= i < |ms| ==> ms[i] in readable
  }

  ghost predicate AllReplaced(olds: seq<Name>, ms: seq<Path>, base: BaseName, n: nat)
    requires n <= |olds|
  {
    forall i :: 0 <= i < n ==> Replaced(olds, ms, base, i)
  }

  /** Nothing is lost and nothing is added: a file is in the result or still pending. */
  ghost predicate Conserved(ret: seq<Out>, pending: seq<Path>, ms: seq<Path>, readable: set<Path>) {
    NewsIn(ret) + multiset(pending) == multiset(ms)
    && |NewsIn(ret)| + KeptIn(ret) == |ret|
    && forall p | p in NewsIn(ret) :: p in readable
  }

  lemma NoneYet(ms: seq<Path>, readable: set<Path>)
    ensures Conserved([], ms, ms, readable)
  {
  }

  lemma ConservedLength(ret: seq<Out>, pending: seq<Path>, ms: seq<Path>, readable: set<Path>)
    requires Conserved(ret, pending, ms, readable)
    ensures NewsIn(ret) + multiset(pending) == multiset(ms) && |ret| + |pending| == |ms| + KeptIn(ret)
  {
    assert |multiset(ms)| == |ms| && |multiset(pending)| == |pending|;
    assert |NewsIn(ret) + multiset(pending)| == |NewsIn(ret)| + |multiset(pending)|;
  }

  ghost predicate AtOlds(ret: seq<Out>, olds: seq<Name>, ms: seq<Path>, base: BaseName, n: nat)
    requires n <= |olds|
  {
    |ret| == n && forall i :: 0 <= i < n ==> ret[i] == AtOld(olds, ms, base, i)
  }

  lemma Turn(olds: seq<Name>, ms: seq<Path>, base: BaseName, i: nat, f: nat)
    requires i < |olds| && FirstWith(Left(ms, base, multiset(olds[..i])), base, olds[i], f)
    ensures var pending := Left(ms, base, multiset(olds[..i]));
      Replaced(olds, ms, base, i) && AtOld(olds, ms, base, i) == New(pending[f])
      && Erase(pending, f) == Left(ms, base, multiset(olds[..i + 1]))
  {
    hide Left, Erase, CountName, Nth;
    NextInTurn(ms, base, multiset(olds[..i]), olds[i], f);
    assert olds[..i + 1] == olds[..i] + [olds[i]];
  }

  lemma NoTurn(olds: seq<Name>, ms: seq<Path>, base: BaseName, i: nat)
    requires i < |olds| && NoneWith(Left(ms, base, multiset(olds[..i])), base, olds[i])
    ensures !Replaced(olds, ms, base, i) && AtOld(olds, ms, base, i) == Kept(i)
    ensures Left(ms, base, multiset(olds[..i])) == Left(ms, base, multiset(olds[..i + 1]))
  {
    hide Left, CountName, Nth;
    NoneInTurn(ms, base, multiset(olds[..i]), olds[i]);
    assert olds[..i + 1] == olds[..i] + [olds[i]];
  }

  lemma AtOldsNone(olds: seq<Name>, ms: seq<Path>, base: BaseName)
    ensures AtOlds([], olds, ms, base, 0) && AllReplaced(olds, ms, base, 0)
  {
  }

  lemma AtOldsPush(ret: seq<Out>, olds: seq<Name>, ms: seq<Path>, base: BaseName, i: nat)
    requires i < |olds| && AtOlds(ret, olds, ms, base, i)
    ensures AtOlds(ret + [AtOld(olds, ms, base, i)], olds, ms, base, i + 1)
    ensures AllReplaced(olds, ms, base, i) && Replaced(olds, ms, base, i) ==> AllReplaced(olds, ms, base, i + 1)
    ensures !Replaced(olds, ms, base, i) ==> !AllReplaced(olds, ms, base, |olds|)
  {
    hide AtOld, Replaced;
  }

  lemma PendingUnreadable(ret: seq<Out>, pending: seq<Path>, ms: seq<Path>, readable: set<Path>, f: nat)
    requires Conserved(ret, pending, ms, readable) && f < |pending| && pending[f] !in readable
    ensures !AllReadable(ms, readable)
  {
    assert pending[f] in multiset(pending);
    assert pending[f] in multiset(ms);
    assert pending[f] in ms;
  }

  lemma PendingReadable(ret: seq<Out>, pending: seq<Path>, ms: seq<Path>, readable: set<Path>)
    requires Conserved(ret, pending, ms, readable)
    ensures AllReadable(pending, readable) <==> AllReadable(ms, readable)
  {
    if AllReadable(pending, readable) {
      forall i | 0 <= i < |ms| ensures ms[i] in readable {
        assert ms[i] in multiset(ms);
        assert ms[i] in NewsIn(ret) || ms[i] in multiset(pending);
      }
    } else {
      var f :| 0 <= f < |pending| && pending[f] !in readable;
      PendingUnreadable(ret, pending, ms, readable, f);
    }
  }

  lemma KeptConserves(ret: seq<Out>, pending: seq<Path>, ms: seq<Path>, readable: set<Path>, i: nat)
    requires Conserved(ret, pending, ms, readable)
    ensures Conserved(ret + [Kept(i)], pending, ms, readable)
  {
    NewsInPush(ret, Kept(i));
  }

  lemma ReplacedConserves(ret: seq<Out>, pending: seq<Path>, ms: seq<Path>, readable: set<Path>, f: nat)
    requires Conserved(ret, pending, ms, readable) && f < |pending| && pending[f] in readable
    ensures Conserved(ret + [New(pending[f])], Erase(pending, f), ms, readable)
  {
    NewsInPush(ret, New(pending[f]));
    EraseConserves(pending, f);
  }

  class Archiver {
    var members: seq<Path>
    const base: BaseName
    const readable: set<Path>
    /** A thin archive is written over a regular one. */
    const cannotKeep: bool

    constructor (members: seq<Path>, base: BaseName, readable: set<Path>, cannotKeep: bool)
      ensures this.members == members && this.base == base && this.readable == readable && this.cannotKeep == cannotKeep
    {
      this.members, this.base, this.readable, this.cannotKeep := members, base, readable, cannotKeep;
    }

    /** Position of the first pending file with the base name, or the number of pending files. */
    method FindIf(name: Name) returns (f: nat)
      ensures f < |members| ==> FirstWith(members, base, name, f)
      ensures f >= |members| ==> f == |members| && NoneWith(members, base, name)
    {
      f := 0;
      while f < |members|
        invariant f <= |members| && forall j :: 0 <= j < f ==> base(members[j]) != name
      {
        if base(members[f]) == name { return; }
        f := f + 1;
      }
    }

    method AddFile(ret: seq<Out>, path: Path, pos: int) returns (ok: bool, r: seq<Out>)
      requires -1 <= pos < |ret|
      ensures ok == (path in readable)
      ensures ok ==> r == if pos == -1 then ret + [New(path)] else ret[pos := New(path)]
    {
      if path !in readable { return false, ret; }
      ok, r := true, if pos == -1 then ret + [New(path)] else ret[pos := New(path)];
    }

    /** The old positions, each with the file whose turn it is or the old member. */
    method MergeOld(olds: seq<Name>) returns (ok: bool, ret: seq<Out>)
      modifies this
      ensures !ok ==> !AllReadable(old(members), readable) || (cannotKeep && !AllReplaced(olds, old(members), base, |olds|))
      ensures ok ==> AtOlds(ret, olds, old(members), base, |olds|) && (cannotKeep ==> AllReplaced(olds, old(members), base, |olds|))
      ensures ok ==> members == Left(old(members), base, multiset(olds))
      ensures ok ==> Conserved(ret, members, old(members), readable)
    {
      hide Conserved, AllReadable, Left, NoneWith, AtOld, AtOlds, AllReplaced, Replaced;
      ghost var ms := members;
      ret := [];
      NoneYet(ms, readable);
      NothingUsed(ms, base);
      AtOldsNone(olds, ms, base);
      var i := 0;
      while i < |olds|
        invariant 0 <= i <= |olds| && AtOlds(ret, olds, ms, base, i)
        invariant members == Left(ms, base, multiset(olds[..i]))
        invariant Conserved(ret, members, ms, readable)
        invariant cannotKeep ==> AllReplaced(olds, ms, base, i)
      {
        var name := olds[i];
        var f := FindIf(name);
        AtOldsPush(ret, olds, ms, base, i);
        if f == |members| {
          NoTurn(olds, ms, base, i);
          if cannotKeep { return false, ret; }
          KeptConserves(ret, members, ms, readable, i);
          ret := ret + [Kept(i)];
        } else {
          Turn(olds, ms, base, i, f);
          var path := members[f];
          var added;
          ok, added := AddFile(ret, path, -1);
          if !ok {
            PendingUnreadable(ret, members, ms, readable, f);
            return;
          }
          ReplacedConserves(ret, members, ms, readable, f);
          ret := added;
          members := members[..f] + members[f + 1..];
        }
        i := i + 1;
      }
      assert olds[..|olds|] == olds;
      ok := true;
    }

    /** Room for the pending files is made at the end, then they are put there in order. */
    method AddPending(front: seq<Out>) returns (ok: bool, ret: seq<Out>)
      ensures ok <==> AllReadable(members, readable)
      ensures ok ==> ret == front + News(members)
    {
      ret := front;
      var insertPos := |ret|;
      for k := 0 to |members|
        invariant ret == front + seq(k, _ => Blank)
      {
        ret := ret[..insertPos] + [Blank] + ret[insertPos..];
      }
      for k := 0 to |members|
        invariant ret == front + News(members[..k]) + seq(|members| - k, _ => Blank)
        invariant forall j :: 0 <= j < k ==> members[j] in readable
      {
        var added;
        ok, added := AddFile(ret, members[k], insertPos + k);
        if !ok { return; }
        ret := added;
      }
      assert members[..|members|] == members;
      ok := true;
    }

    /**
      On success every file is in the result exactly once, an old position holds the file whose
      turn it is or the old member, the other files follow in command-line order, and the length
      is that of both sides less the replaced members.  It fails exactly if a file cannot be
      read, or an old member would have to be kept and cannot.
     */
    method ComputeNewArchiveMembers(olds: seq<Name>) returns (ok: bool, ret: seq<Out>)
      modifies this
      ensures ok <==> AllReadable(old(members), readable) && (cannotKeep ==> AllReplaced(olds, old(members), base, |olds|))
      ensures ok ==> |ret| >= |olds| && ret[|olds|..] == News(Left(old(members), base, multiset(olds)))
      ensures ok ==> AtOlds(ret[..|olds|], olds, old(members), base, |olds|)
      ensures ok ==> NewsIn(ret) == multiset(old(members))
      ensures ok ==> |ret| == |old(members)| + KeptIn(ret)
    {
      hide Conserved, AllReadable, Left, AllReplaced, NewsIn, KeptIn;
      ghost var ms := members;
      ok, ret := MergeOld(olds);
      if !ok { return; }
      ghost var front := ret;
      ok, ret := AddPending(ret);
      PendingReadable(front, members, ms, readable);
      if !ok { return; }
      NewsInNews(front, members);
      ConservedLength(front, members, ms, readable);
      assert ret[..|olds|] == front && ret[|olds|..] == News(members);
    }
  }
}

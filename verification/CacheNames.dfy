/**
  Names of temporaries in the object cache.  createUniqueFile (ldc/driver/cache.cpp) only looks
  whether a file exists, and the pruner deletes temporaries too, so that a name can be handed
  out again while its first user goes on.  That is exactly what breaks the cache.
 */
module CacheNames {
  import opened FiniteSets
  import opened ObjectCache

  /** A visible entry that is not the complete object. */
  ghost predicate Broken(w: World, s: State, h: Hash) {
    Entry(h) in s.files && !Holds(s, Entry(h), w.obj(h))
  }

  /** Some run from here breaks the entry, although names are not reused any more. */
  ghost predicate CanBreak(w: World, s: State, h: Hash) {
    exists es :: IsRun(w, s, es) && Broken(w, After(w, s, es), h)
  }

  lemma BreakNow(w: World, s: State, h: Hash)
    requires Broken(w, s, h)
    ensures CanBreak(w, s, h)
  {
    assert IsRun(w, s, []) && After(w, s, []) == s;
  }

  lemma BreakStep(w: World, s: State, e: Event, h: Hash)
    requires Enabled(w, s, e) && !e.MakeTemp? && CanBreak(w, Next(w, s, e), h)
    ensures CanBreak(w, s, h)
  {
    var s' := Next(w, s, e);
    var es :| IsRun(w, s', es) && Broken(w, After(w, s', es), h);
    var es' := [e] + es;
    assert es'[0] == e && es'[1..] == es;
    assert IsRun(w, s, es') && After(w, s, es') == After(w, s', es);
  }

  /** From a state that satisfies the invariant nothing can break. */
  lemma NeverBreaks(w: World, s: State, own: map<Inode, Owner>, h: Hash)
    requires Inv(w, s, own)
    ensures !CanBreak(w, s, h)
  {
    forall es | IsRun(w, s, es) ensures !Broken(w, After(w, s, es), h) {
      var own' := RunKeepsInv(w, s, es, own);
      var s' := After(w, s, es);
      assert Entry(h) in s'.files ==> LinkOk(s', own', Entry(h));
    }
  }

  // ------------------------------------------------------------------ the last steps of q

  predicate At(s: State, q: Pid, ph: Phase) { q in s.procs && s.procs[q].phase == ph }

  /** The temporary's name stands for an inode with other contents than q's object. */
  ghost predicate Wrong(w: World, s: State, q: Pid, t: Path) {
    q in s.procs && t in s.files && s.files[t] in s.data && s.data[s.files[t]] != w.obj(s.procs[q].hash)
  }

  lemma RenameBreaks(w: World, s: State, q: Pid, t: Path)
    requires At(s, q, CacheCopied(t)) && Wrong(w, s, q, t)
    ensures CanBreak(w, s, s.procs[q].hash)
  {
    var s' := RenameStep(s, q, s.procs[q].hash, t);
    assert Next(w, s, Rename(q)) == s';
    BreakNow(w, s', s.procs[q].hash);
    BreakStep(w, s, Rename(q), s.procs[q].hash);
  }

  /** q has copied everything and closes the copy. */
  lemma CopyEndIs(w: World, s: State, q: Pid, t: Path, src: Inode, dst: Inode, pos: nat)
    requires At(s, q, CacheCopy(t, src, dst, pos)) && src in s.data && pos >= |s.data[src]|
    ensures Enabled(w, s, CopyEnd(q)) && Next(w, s, CopyEnd(q)) == SetPhase(s, q, CacheCopied(t))
  {
  }

  /** q copies all that is left in one chunk. */
  lemma CopyRestIs(w: World, s: State, q: Pid, t: Path, src: Inode, dst: Inode, pos: nat)
    requires At(s, q, CacheCopy(t, src, dst, pos)) && src in s.data && dst in s.data && pos <= |s.data[src]|
    ensures var n := |s.data[src]| - pos;
      Enabled(w, s, Chunk(q, n)) && Next(w, s, Chunk(q, n)) ==
        SetPhase(Write(s, dst, pos, s.data[src][pos..pos + n]), q, CacheCopy(t, src, dst, pos + n))
  {
  }

  lemma OpenIs(w: World, s: State, q: Pid, t: Path, i: Inode)
    requires At(s, q, TempMade(t)) && i !in s.data && Output(q) in s.files
    ensures Enabled(w, s, OpenCacheCopy(q, i))
    ensures Next(w, s, OpenCacheCopy(q, i)) ==
      SetPhase(Opened(s, t, i), q, CacheCopy(t, s.files[Output(q)], OpenInode(s, t, i), 0))
  {
  }

  /** q has copied to an inode the name no longer stands for. */
  lemma CopyBreaks(w: World, s: State, q: Pid, t: Path, src: Inode, dst: Inode, pos: nat)
    requires At(s, q, CacheCopy(t, src, dst, pos)) && Wrong(w, s, q, t) && s.files[t] != dst
    requires src in s.data && dst in s.data && src != dst && pos <= |s.data[src]|
    ensures CanBreak(w, s, s.procs[q].hash)
  {
    hide Enabled, Next, Write, WriteAt;
    var n := |s.data[src]| - pos;
    CopyRestIs(w, s, q, t, src, dst, pos);
    var s1 := Next(w, s, Chunk(q, n));
    WriteOnly(s, dst, pos, s.data[src][pos..pos + n]);
    CopyEndIs(w, s1, q, t, src, dst, pos + n);
    var s2 := Next(w, s1, CopyEnd(q));
    RenameBreaks(w, s2, q, t);
    BreakStep(w, s1, CopyEnd(q), s.procs[q].hash);
    BreakStep(w, s, Chunk(q, n), s.procs[q].hash);
  }

  lemma WriteOnly(s: State, dst: Inode, pos: nat, chunk: Data)
    requires dst in s.data
    ensures var s' := Write(s, dst, pos, chunk);
      s'.files == s.files && s'.procs == s.procs && s'.data.Keys == s.data.Keys
      && forall i :: i in s.data && i != dst ==> s'.data[i] == s.data[i]
  {
  }

  /** q is about to rename; p, which got the same name, opens the file and empties it. */
  lemma TruncateBreaks(w: World, s: State, p: Pid, q: Pid, t: Path)
    requires At(s, q, CacheCopied(t)) && At(s, p, TempMade(t)) && p != q && Output(p) in s.files
    requires t in s.files && w.obj(s.procs[q].hash) != []
    ensures CanBreak(w, s, s.procs[q].hash)
  {
    hide Enabled, Next;
    var i := FreshNat(s.data.Keys);
    OpenIs(w, s, p, t, i);
    var s' := Next(w, s, OpenCacheCopy(p, i));
    RenameBreaks(w, s', q, t);
    BreakStep(w, s, OpenCacheCopy(p, i), s.procs[q].hash);
  }

  /** q copies everything, then p empties the file. */
  lemma CopyTruncateBreaks(w: World, s: State, p: Pid, q: Pid, t: Path, src: Inode, dst: Inode)
    requires At(s, q, CacheCopy(t, src, dst, 0)) && At(s, p, TempMade(t)) && p != q && Output(p) in s.files
    requires t in s.files && src in s.data && dst in s.data && src != dst && w.obj(s.procs[q].hash) != []
    ensures CanBreak(w, s, s.procs[q].hash)
  {
    hide Enabled, Next, Write, WriteAt;
    var n := |s.data[src]|;
    CopyRestIs(w, s, q, t, src, dst, 0);
    var s1 := Next(w, s, Chunk(q, n));
    WriteOnly(s, dst, 0, s.data[src][0..n]);
    CopyEndIs(w, s1, q, t, src, dst, n);
    var s2 := Next(w, s1, CopyEnd(q));
    TruncateBreaks(w, s2, p, q, t);
    BreakStep(w, s1, CopyEnd(q), s.procs[q].hash);
    BreakStep(w, s, Chunk(q, n), s.procs[q].hash);
  }

  /** Both have the name and neither has opened the file. */
  lemma BothBreak(w: World, s: State, p: Pid, q: Pid, t: Path)
    requires At(s, q, TempMade(t)) && At(s, p, TempMade(t)) && p != q && Output(p) in s.files && Output(q) in s.files
    requires t in s.files && t != Output(q) && s.files[t] in s.data && s.files[Output(q)] in s.data
    requires s.files[Output(q)] != s.files[t] && w.obj(s.procs[q].hash) != []
    ensures CanBreak(w, s, s.procs[q].hash)
  {
    hide Enabled, Next;
    var i := FreshNat(s.data.Keys);
    OpenIs(w, s, q, t, i);
    var s' := Next(w, s, OpenCacheCopy(q, i));
    CopyTruncateBreaks(w, s', p, q, t, s.files[Output(q)], s.files[t]);
    BreakStep(w, s, OpenCacheCopy(q, i), s.procs[q].hash);
  }

  // ---------------------------------------------------------------- reuse means breakage

  /** What p finds after it has been given the name t that q is using: an empty file, q as it was. */
  lemma AfterReuse(w: World, s: State, own: map<Inode, Owner>, e: Event, q: Pid)
    requires Inv(w, s, own) && e.MakeTemp? && Enabled(w, s, e) && q in s.procs
    requires Using(s.procs[q].phase, Temp(s.procs[e.p].hash, e.n))
    ensures var s', t := Next(w, s, e), Temp(s.procs[e.p].hash, e.n);
      && q != e.p && At(s', e.p, TempMade(t)) && q in s'.procs && s'.procs[q] == s.procs[q]
      && t in s'.files && s'.files[t] == e.ino && e.ino !in s.data
      && s'.data == s.data[e.ino := []] && s'.files == s.files[t := e.ino]
      && Output(e.p) in s.files && Output(q) in s.files
      && s.files[Output(q)] in s.data && s.data[s.files[Output(q)]] == w.obj(s.procs[q].hash)
  {
    hide Enabled, Next;
    MakeTempIs(w, s, e, own);
    assert PhaseOk(w, s, own, e.p);
    assert PhaseOk(w, s, own, q);
  }

  lemma ReuseBreaks(w: World, s: State, own: map<Inode, Owner>, e: Event, q: Pid)
    requires Inv(w, s, own) && e.MakeTemp? && Enabled(w, s, e) && q in s.procs
    requires Using(s.procs[q].phase, Temp(s.procs[e.p].hash, e.n)) && w.obj(s.procs[q].hash) != []
    ensures CanBreak(w, Next(w, s, e), s.procs[q].hash)
  {
    var s', t := Next(w, s, e), Temp(s.procs[e.p].hash, e.n);
    AfterReuse(w, s, own, e, q);
    match s.procs[q].phase
    case CacheCopied(_) => RenameBreaks(w, s', q, t);
    case CacheCopy(_, src, dst, pos) =>
      CopyingFacts(w, s, own, q);
      hide Next, Enabled;
      CopyBreaks(w, s', q, t, src, dst, pos);
    case TempMade(_) =>
      hide Next, Enabled;
      BothBreak(w, s', e.p, q, t);
    case _ =>
  }

  lemma CopyingFacts(w: World, s: State, own: map<Inode, Owner>, q: Pid)
    requires Inv(w, s, own) && q in s.procs && s.procs[q].phase.CacheCopy?
    ensures var ph := s.procs[q].phase;
      ph.src in s.data && ph.dst in s.data && ph.src != ph.dst && ph.pos <= |s.data[ph.src]|
  {
    assert PhaseOk(w, s, own, q);
    assert LinkOk(s, own, Output(q));
  }

  /**
    The exact condition.  When a compiler creates a temporary, no entry can ever be broken (as
    long as names are not reused later) if and only if no other compiler is using that name.
   */
  lemma SafeIffNameUnused(w: World, s: State, es: seq<Event>, e: Event)
    requires Init(w, s) && IsRun(w, s, es) && e.MakeTemp? && Enabled(w, After(w, s, es), e)
    requires forall h :: w.obj(h) != []
    ensures UniqueTemp(After(w, s, es), e) <==> forall h :: !CanBreak(w, Next(w, After(w, s, es), e), h)
  {
    hide CanBreak, Inv, Enabled, Next, Using;
    var own := InitInv(w, s);
    var own' := RunKeepsInv(w, s, es, own);
    var now := After(w, s, es);
    if UniqueTemp(now, e) {
      StepKeepsInv(w, now, e, own');
      forall h ensures !CanBreak(w, Next(w, now, e), h) {
        NeverBreaks(w, Next(w, now, e), NextOwner(now, e, own'), h);
      }
    } else {
      MakerRuns(w, now, e);
      var q :| q in now.procs && Using(now.procs[q].phase, Temp(now.procs[e.p].hash, e.n));
      ReuseBreaks(w, now, own', e, q);
    }
  }

  lemma MakerRuns(w: World, s: State, e: Event)
    requires e.MakeTemp? && Enabled(w, s, e)
    ensures e.p in s.procs
  {
  }

  // ------------------------------------------------------------------------ whole runs

  /** A run in which createUniqueFile may pick any name that no file has. */
  ghost predicate FreeRun(w: World, s: State, es: seq<Event>)
    decreases |es|
  {
    es == [] || (Enabled(w, s, es[0]) && FreeRun(w, Next(w, s, es[0]), es[1..]))
  }

  /** At no point of the run an entry is broken or can come to be. */
  ghost predicate SafeThroughout(w: World, s: State, es: seq<Event>)
    requires FreeRun(w, s, es)
    decreases |es|
  {
    (forall h :: !CanBreak(w, s, h)) && (es != [] ==> SafeThroughout(w, Next(w, s, es[0]), es[1..]))
  }

  lemma {:induction false} SafeIffNamesUnique(w: World, s: State, es: seq<Event>, own: map<Inode, Owner>)
    requires Inv(w, s, own) && FreeRun(w, s, es) && forall h :: w.obj(h) != []
    ensures SafeThroughout(w, s, es) <==> IsRun(w, s, es)
    decreases |es|
  {
    hide Inv, CanBreak, Enabled, Next, Using;
    forall h ensures !CanBreak(w, s, h) { NeverBreaks(w, s, own, h); }
    if es != [] {
      var e := es[0];
      if UniqueTemp(s, e) {
        StepKeepsInv(w, s, e, own);
        SafeIffNamesUnique(w, Next(w, s, e), es[1..], NextOwner(s, e, own));
      } else {
        var q :| q in s.procs && Using(s.procs[q].phase, Temp(s.procs[e.p].hash, e.n));
        ReuseBreaks(w, s, own, e, q);
      }
    }
  }

  /**
    For every run from an initial state: entries are safe throughout if and only if no compiler
    is ever given the name of a temporary that another one is using.
   */
  lemma RunSafeIff(w: World, s: State, es: seq<Event>)
    requires Init(w, s) && FreeRun(w, s, es) && forall h :: w.obj(h) != []
    ensures SafeThroughout(w, s, es) <==> IsRun(w, s, es)
  {
    var own := InitInv(w, s);
    SafeIffNamesUnique(w, s, es, own);
  }

  // --------------------------------------------------------------- and reuse does happen

  ghost predicate Runs(w: World, s: State, s': State) {
    exists es :: IsRun(w, s, es) && After(w, s, es) == s'
  }

  lemma RunsStep(w: World, s: State, e: Event)
    requires Enabled(w, s, e) && UniqueTemp(s, e)
    ensures Runs(w, s, Next(w, s, e))
  {
    var es := [e];
    assert es[1..] == [];
    assert IsRun(w, Next(w, s, e), []);
    assert IsRun(w, s, es) && After(w, s, es) == Next(w, s, e);
  }

  lemma {:induction false} RunAppend(w: World, s: State, es: seq<Event>, fs: seq<Event>)
    requires IsRun(w, s, es) && IsRun(w, After(w, s, es), fs)
    ensures IsRun(w, s, es + fs) && After(w, s, es + fs) == After(w, After(w, s, es), fs)
    decreases |es|
  {
    if es == [] {
      assert es + fs == fs;
    } else {
      assert (es + fs)[0] == es[0] && (es + fs)[1..] == es[1..] + fs;
      RunAppend(w, Next(w, s, es[0]), es[1..], fs);
    }
  }

  lemma RunsTrans(w: World, a: State, b: State, c: State)
    requires Runs(w, a, b) && Runs(w, b, c)
    ensures Runs(w, a, c)
  {
    var es :| IsRun(w, a, es) && After(w, a, es) == b;
    var fs :| IsRun(w, b, fs) && After(w, b, fs) == c;
    RunAppend(w, a, es, fs);
  }

  /** Only process r and its output have changed. */
  ghost predicate OnlyOwn(s: State, s': State, r: Pid) {
    && s'.procs.Keys == s.procs.Keys
    && (forall q :: q in s.procs && q != r ==> s'.procs[q] == s.procs[q])
    && (forall path :: path != Output(r) ==> (path in s'.files <==> path in s.files))
  }

  ghost predicate Plain(s: State, r: Pid, h: Hash) {
    r in s.procs && s.procs[r].hash == h && !s.procs[r].wantsExtra
  }

  /** A compiler that finds no entry writes its object. */
  lemma Writes(w: World, s: State, r: Pid, h: Hash) returns (s': State)
    requires Plain(s, r, h) && At(s, r, Start) && Entry(h) !in s.files
    ensures Runs(w, s, s') && Plain(s', r, h) && At(s', r, Written) && OnlyOwn(s, s', r)
  {
    hide *;
    var s1 := LooksUp(w, s, r, h);
    var s2, dst := StartsWriting(w, s1, r, h);
    RunsTrans(w, s, s1, s2);
    s' := WritesOut(w, s2, r, h, dst);
    RunsTrans(w, s, s2, s');
    OnlyOwnTrans(s, s1, s2, r);
    OnlyOwnTrans(s, s2, s', r);
  }

  lemma OnlyOwnTrans(a: State, b: State, c: State, r: Pid)
    requires OnlyOwn(a, b, r) && OnlyOwn(b, c, r)
    ensures OnlyOwn(a, c, r)
  {
  }

  lemma LooksUp(w: World, s: State, r: Pid, h: Hash) returns (s': State)
    requires Plain(s, r, h) && At(s, r, Start) && Entry(h) !in s.files
    ensures Runs(w, s, s') && Plain(s', r, h) && At(s', r, Miss) && OnlyOwn(s, s', r)
  {
    hide Runs;
    s' := SetPhase(s, r, Miss);
    assert s' == Next(w, s, Lookup(r));
    RunsStep(w, s, Lookup(r));
  }

  lemma StartsWriting(w: World, s: State, r: Pid, h: Hash) returns (s': State, dst: Inode)
    requires Plain(s, r, h) && At(s, r, Miss)
    ensures Runs(w, s, s') && Plain(s', r, h) && At(s', r, Writing(dst, 0)) && dst in s'.data && OnlyOwn(s, s', r)
  {
    var i := FreshNat(s.data.Keys);
    var e := StartWrite(r, i);
    assert Enabled(w, s, e);
    StartWriteIs(w, s, e, map[]);
    RunsStep(w, s, e);
    hide Runs, Next, Enabled;
    s', dst := Next(w, s, e), OpenInode(s, Output(r), i);
  }

  lemma WritesOut(w: World, s: State, r: Pid, h: Hash, dst: Inode) returns (s': State)
    requires Plain(s, r, h) && At(s, r, Writing(dst, 0)) && dst in s.data
    ensures Runs(w, s, s') && Plain(s', r, h) && At(s', r, Written) && OnlyOwn(s, s', r)
  {
    hide Runs, WriteAt;
    var n := |w.obj(h)|;
    var s1 := Next(w, s, Chunk(r, n));
    RunsStep(w, s, Chunk(r, n));
    s' := SetPhase(s1, r, Written);
    assert s' == Next(w, s1, CopyEnd(r));
    RunsStep(w, s1, CopyEnd(r));
    RunsTrans(w, s, s1, s');
  }

  /** Nobody is on its way to publishing an entry. */
  ghost predicate NoneUsing(s: State) {
    forall q, t :: q in s.procs ==> !Using(s.procs[q].phase, t)
  }

  /** q has created a temporary, p has written its object: the pruner and createUniqueFile do the rest. */
  lemma NameComesBack(w: World, s: State, p: Pid, q: Pid, h: Hash, n: nat) returns (s': State, e: Event)
    requires Plain(s, p, h) && At(s, p, Written) && p != q && At(s, q, TempMade(Temp(h, n))) && Temp(h, n) in s.files
    ensures Runs(w, s, s') && e.MakeTemp? && Enabled(w, s', e) && !UniqueTemp(s', e)
    ensures q in s'.procs && s'.procs[q] == s.procs[q] && Using(s'.procs[q].phase, Temp(s'.procs[e.p].hash, e.n))
  {
    s' := Next(w, s, Prune(Temp(h, n)));
    RunsStep(w, s, Prune(Temp(h, n)));
    var i := FreshNat(s'.data.Keys);
    e := MakeTemp(p, n, i);
    assert Using(s'.procs[q].phase, Temp(h, n));
  }

  /**
    Nothing but chance keeps the names apart: any two compilers of one module that find no entry
    can get to a point where the name one of them is using is handed out again, and then the
    entry can be broken.
   */
  lemma PrunedNameBreaksEntry(w: World, s: State, p: Pid, q: Pid, h: Hash) returns (s': State, e: Event)
    requires Init(w, s) && p != q && Plain(s, p, h) && Plain(s, q, h) && Entry(h) !in s.files && w.obj(h) != []
    ensures Runs(w, s, s') && e.MakeTemp? && Enabled(w, s', e) && !UniqueTemp(s', e)
    ensures CanBreak(w, Next(w, s', e), h)
  {
    hide Runs, Inv, CanBreak;
    var s1 := Writes(w, s, q, h);
    var s2 := Writes(w, s1, p, h);
    RunsTrans(w, s, s1, s2);
    var n := FreeName(s2, h);
    var s3 := MakesFirst(w, s2, q, h, n);
    RunsTrans(w, s, s2, s3);
    s', e := NameComesBack(w, s3, p, q, h, n);
    RunsTrans(w, s, s3, s');
    var own := RunsInv(w, s, s');
    ReuseBreaks(w, s', own, e, q);
  }

  lemma FreeName(s: State, h: Hash) returns (n: nat)
    ensures Temp(h, n) !in s.files
  {
    var names := set path | path in s.files && path.Temp? :: path.n;
    n := FreshNat(names);
    assert forall path :: path in s.files && path.Temp? ==> path.n in names;
  }

  lemma MakesFirst(w: World, s: State, q: Pid, h: Hash, n: nat) returns (s': State)
    requires Plain(s, q, h) && At(s, q, Written) && NoneUsing(s) && Temp(h, n) !in s.files
    ensures Runs(w, s, s') && At(s', q, TempMade(Temp(h, n))) && Temp(h, n) in s'.files && s'.procs[q].hash == h
    ensures s'.procs.Keys == s.procs.Keys && forall r :: r in s.procs && r != q ==> s'.procs[r] == s.procs[r]
  {
    var i := FreshNat(s.data.Keys);
    var e := MakeTemp(q, n, i);
    MakeTempIs(w, s, e, map[]);
    RunsStep(w, s, e);
    s' := Next(w, s, e);
  }

  lemma RunsInv(w: World, s: State, s': State) returns (own: map<Inode, Owner>)
    requires Init(w, s) && Runs(w, s, s')
    ensures Inv(w, s', own)
  {
    var es :| IsRun(w, s, es) && After(w, s, es) == s';
    own := InitInv(w, s);
    own := RunKeepsInv(w, s, es, own);
  }
}

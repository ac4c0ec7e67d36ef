/**
  What the object cache is for: a compiler that finds an entry ends with the object from it,
  one that does not ends with the object and leaves an entry.  (writeModule in
  ldc/driver/toobj.cpp, cacheLookup, recoverObjectFile and cacheObjectFile in
  ldc/driver/cache.cpp.)
 */
module CacheProgress {
  import opened FiniteSets
  import opened ObjectCache

  // ------------------------------------------------------------- which way a compiler goes

  /** Phases after an entry was found. */
  predicate FoundSide(ph: Phase) {
    ph.Hit? || ph.HitRemoved? || ph.HitCopy? || ph.HitCopied? || ph == Done(true) || ph.Failed?
  }

  /** Phases after none was found. */
  predicate MissedSide(ph: Phase) {
    ph.Miss? || ph.Writing? || ph.Written? || ph.TempMade? || ph.CacheCopy? || ph.CacheCopied? || ph == Done(false) || ph.Failed?
  }

  /** No step leads from one side to the other. */
  ghost predicate SameSide(ph: Phase, ph': Phase, looks: bool) {
    && (FoundSide(ph) ==> FoundSide(ph'))
    && (MissedSide(ph) ==> MissedSide(ph'))
    && (ph.Failed? ==> ph'.Failed?)
    && (ph.Start? && !looks ==> ph'.Start? || ph'.Failed?)
  }

  lemma StepSide(w: World, s: State, e: Event, p: Pid)
    requires Enabled(w, s, e) && p in s.procs
    ensures p in Next(w, s, e).procs && Next(w, s, e).procs[p].hash == s.procs[p].hash
    ensures SameSide(s.procs[p].phase, Next(w, s, e).procs[p].phase, e == Lookup(p))
  {
    if e.OpenRecover? || e.StartWrite? || e.WriteExtra? || e.MakeTemp? || e.OpenCacheCopy? {
      OpeningSide(w, s, e, p);
    } else {
      OtherSide(w, s, e, p);
    }
  }

  lemma OpeningSide(w: World, s: State, e: Event, p: Pid)
    requires Enabled(w, s, e) && p in s.procs
    requires e.OpenRecover? || e.StartWrite? || e.WriteExtra? || e.MakeTemp? || e.OpenCacheCopy?
    ensures p in Next(w, s, e).procs && Next(w, s, e).procs[p].hash == s.procs[p].hash
    ensures SameSide(s.procs[p].phase, Next(w, s, e).procs[p].phase, false)
  {
    hide Next, NextFor, NextOwner, Enabled, EnabledFor;
    if e.OpenRecover? { OpenRecoverIs(w, s, e, map[]); }
    else if e.StartWrite? { StartWriteIs(w, s, e, map[]); }
    else if e.WriteExtra? { WriteExtraIs(w, s, e, map[]); }
    else if e.MakeTemp? { MakeTempIs(w, s, e, map[]); }
    else { OpenCacheCopyIs(w, s, e, map[]); }
  }

  lemma OtherSide(w: World, s: State, e: Event, p: Pid)
    requires Enabled(w, s, e) && p in s.procs
    requires !(e.OpenRecover? || e.StartWrite? || e.WriteExtra? || e.MakeTemp? || e.OpenCacheCopy?)
    ensures p in Next(w, s, e).procs && Next(w, s, e).procs[p].hash == s.procs[p].hash
    ensures SameSide(s.procs[p].phase, Next(w, s, e).procs[p].phase, e == Lookup(p))
  {
    hide WriteAt;
  }

  lemma {:induction false} RunSide(w: World, s: State, es: seq<Event>, p: Pid)
    requires IsRun(w, s, es) && p in s.procs && !s.procs[p].phase.Start?
    requires FoundSide(s.procs[p].phase) || MissedSide(s.procs[p].phase)
    ensures var s' := After(w, s, es);
      p in s'.procs && s'.procs[p].hash == s.procs[p].hash
      && (FoundSide(s.procs[p].phase) ==> FoundSide(s'.procs[p].phase))
      && (MissedSide(s.procs[p].phase) ==> MissedSide(s'.procs[p].phase))
    ensures forall k :: 0 <= k < |es| ==> es[k] != Lookup(p)
    decreases |es|
  {
    hide Next, Enabled, FoundSide, MissedSide, UniqueTemp;
    if es != [] {
      LooksOnce(w, s, es[0], p);
      StepSide(w, s, es[0], p);
      SidesLeaveStart(s.procs[p].phase);
      SidesLeaveStart(Next(w, s, es[0]).procs[p].phase);
      RunSide(w, Next(w, s, es[0]), es[1..], p);
      forall k | 0 <= k < |es| ensures es[k] != Lookup(p) {
        if k > 0 { assert es[k] == es[1..][k - 1]; }
      }
    }
  }

  lemma SidesLeaveStart(ph: Phase)
    ensures ph.Start? ==> !FoundSide(ph) && !MissedSide(ph)
  {
  }

  lemma LooksOnce(w: World, s: State, e: Event, p: Pid)
    requires Enabled(w, s, e) && p in s.procs && !s.procs[p].phase.Start?
    ensures e != Lookup(p)
  {
  }

  lemma LookupIs(w: World, s: State, p: Pid)
    requires Enabled(w, s, Lookup(p))
    ensures p in s.procs && s.procs[p].phase.Start?
    ensures Next(w, s, Lookup(p)) == SetPhase(s, p, if Entry(s.procs[p].hash) in s.files then Hit else Miss)
  {
  }

  /**
    Over every run: a compiler that finishes has looked once, at event k, and it finishes with a
    hit if and only if the entry was visible there.
   */
  lemma {:induction false} HitIffFound(w: World, s: State, es: seq<Event>, p: Pid) returns (k: nat)
    requires IsRun(w, s, es) && p in s.procs && s.procs[p].phase.Start?
    requires p in After(w, s, es).procs && After(w, s, es).procs[p].phase.Done?
    ensures k < |es| && es[k] == Lookup(p) && IsRun(w, s, es[..k])
    ensures After(w, s, es).procs[p].phase.hit <==> Entry(s.procs[p].hash) in After(w, s, es[..k]).files
    ensures forall j :: 0 <= j < |es| && j != k ==> es[j] != Lookup(p)
    decreases |es|
  {
    hide Next, Enabled, UniqueTemp;
    var e := es[0];
    var s1, rest := Next(w, s, e), es[1..];
    StepSide(w, s, e, p);
    if e == Lookup(p) {
      LookupIs(w, s, p);
      RunSide(w, s1, rest, p);
      k := 0;
      assert es[..0] == [];
      forall j | 0 <= j < |es| && j != 0 ensures es[j] != Lookup(p) { assert es[j] == rest[j - 1]; }
    } else if s1.procs[p].phase.Failed? {
      RunSide(w, s1, rest, p);
      assert false;
    } else {
      var m := HitIffFound(w, s1, rest, p);
      k := m + 1;
      PrefixRun(w, s, es, k);
      assert es[..k][0] == e && es[..k][1..] == rest[..m];
      forall j | 0 <= j < |es| && j != k ensures es[j] != Lookup(p) {
        if j > 0 { assert es[j] == rest[j - 1]; }
      }
    }
  }

  lemma {:induction false} PrefixRun(w: World, s: State, es: seq<Event>, k: nat)
    requires IsRun(w, s, es) && k <= |es|
    ensures IsRun(w, s, es[..k])
    decreases k
  {
    hide Next, Enabled, UniqueTemp;
    if k > 0 {
      assert es[..k][0] == es[0] && es[..k][1..] == es[1..][..k - 1];
      PrefixRun(w, Next(w, s, es[0]), es[1..], k - 1);
    }
  }

  // ---------------------------------------------------------------- one compiler by itself

  /** A step of p that gets it on: no stop, no empty chunk. */
  predicate Own(e: Event, p: Pid) {
    !e.Prune? && !e.Stop? && e.p == p && !(e.Chunk? && e.n == 0)
  }

  ghost predicate Alone(es: seq<Event>, p: Pid) { forall k :: 0 <= k < |es| ==> Own(es[k], p) }

  /** p cannot go on. */
  ghost predicate Ended(w: World, s: State, p: Pid) {
    forall e :: Own(e, p) && Enabled(w, s, e) ==> !UniqueTemp(s, e)
  }

  /** On its way to a hit; the entry is there. */
  ghost predicate Hitting(s: State, p: Pid) {
    p in s.procs && Entry(s.procs[p].hash) in s.files
    && (s.procs[p].phase.Start? || (FoundSide(s.procs[p].phase) && !s.procs[p].phase.Failed?))
  }

  /** On its way to a new entry; its temporary is there, and so is the entry in the end. */
  ghost predicate Missing(s: State, p: Pid) {
    p in s.procs && var ph := s.procs[p].phase; var h := s.procs[p].hash;
      && ((ph.Start? && Entry(h) !in s.files) || (MissedSide(ph) && !ph.Failed?))
      && (ph.TempMade? || ph.CacheCopy? || ph.CacheCopied? ==> ph.t in s.files)
      && (ph.Done? ==> Entry(h) in s.files)
  }

  /** How many steps p has still to take at most. */
  ghost function Left(w: World, s: State, p: Pid): int
    requires p in s.procs
  {
    var n := |w.obj(s.procs[p].hash)|;
    match s.procs[p].phase
    case Start => 2 * n + 10
    case Hit => n + 4
    case HitRemoved => n + 3
    case HitCopy(_, _, pos) => n - pos + 2
    case HitCopied => 1
    case Miss => 2 * n + 8 + (if s.procs[p].extraDone then 0 else 1)
    case Writing(_, pos) => n - pos + n + 7
    case Written => n + 6
    case TempMade(_) => n + 5
    case CacheCopy(_, _, _, pos) => n - pos + 3
    case CacheCopied(_) => 2
    case Done(_) => 0
    case Failed => 0
  }

  /** Inodes p copies between, and how much it has copied. */
  lemma CopyFacts(w: World, s: State, own: map<Inode, Owner>, p: Pid)
    requires Inv(w, s, own) && p in s.procs
    ensures var ph, o := s.procs[p].phase, w.obj(s.procs[p].hash);
      && (ph.HitCopy? || ph.CacheCopy? ==> ph.src in s.data && s.data[ph.src] == o && ph.dst in s.data && ph.pos <= |o|)
      && (ph.Writing? ==> ph.dst in s.data && ph.pos <= |o|)
      && (ph.TempMade? || ph.Written? ==> Output(p) in s.files)
      && ((ph.TempMade? || ph.CacheCopy? || ph.CacheCopied?) ==> ph.t.Temp?)
  {
    assert PhaseOk(w, s, own, p);
  }

  lemma EntryFacts(w: World, s: State, own: map<Inode, Owner>, h: Hash)
    requires Inv(w, s, own)
    ensures Entry(h) in s.files ==> Holds(s, Entry(h), w.obj(h))
  {
    assert Entry(h) in s.files ==> LinkOk(s, own, Entry(h));
  }

  /** A compiler that has found its entry goes on towards a hit. */
  lemma HitStep(w: World, s: State, own: map<Inode, Owner>, p: Pid, e: Event)
    requires Inv(w, s, own) && Hitting(s, p) && Own(e, p) && Enabled(w, s, e)
    ensures var s' := Next(w, s, e);
      Hitting(s', p) && s'.procs[p].hash == s.procs[p].hash && 0 <= Left(w, s', p) < Left(w, s, p)
      && s'.files[Entry(s.procs[p].hash)] == s.files[Entry(s.procs[p].hash)]
  {
    hide WriteAt, Inv;
    CopyFacts(w, s, own, p);
  }

  ghost predicate MissedBy(w: World, s: State, s': State, p: Pid)
    requires p in s.procs
  {
    Missing(s', p) && s'.procs[p].hash == s.procs[p].hash && 0 <= Left(w, s', p) < Left(w, s, p)
  }

  /** One that has not goes on towards a new entry. */
  lemma MissStep(w: World, s: State, own: map<Inode, Owner>, p: Pid, e: Event)
    requires Inv(w, s, own) && Missing(s, p) && Own(e, p) && Enabled(w, s, e)
    ensures MissedBy(w, s, Next(w, s, e), p)
  {
    hide Inv, Missing, MissedBy, Own, Enabled, Next;
    if e.StartWrite? || e.WriteExtra? || e.MakeTemp? || e.OpenCacheCopy? {
      MissOpens(w, s, own, p, e);
    } else {
      MissOther(w, s, own, p, e);
    }
  }

  lemma MissOpens(w: World, s: State, own: map<Inode, Owner>, p: Pid, e: Event)
    requires Inv(w, s, own) && Missing(s, p) && Own(e, p) && Enabled(w, s, e)
    requires e.StartWrite? || e.WriteExtra? || e.MakeTemp? || e.OpenCacheCopy?
    ensures MissedBy(w, s, Next(w, s, e), p)
  {
    hide Inv, Next, NextFor, NextOwner, Enabled, EnabledFor;
    CopyFacts(w, s, own, p);
    if e.StartWrite? { StartWriteIs(w, s, e, map[]); }
    else if e.WriteExtra? {
      WriteExtraIs(w, s, e, map[]);
      ExtraWanted(w, s, e);
    }
    else if e.MakeTemp? { MakeTempIs(w, s, e, map[]); }
    else { OpenCacheCopyIs(w, s, e, map[]); }
  }

  lemma ExtraWanted(w: World, s: State, e: Event)
    requires e.WriteExtra? && Enabled(w, s, e)
    ensures e.p in s.procs && !s.procs[e.p].extraDone
  {
  }

  lemma MissOther(w: World, s: State, own: map<Inode, Owner>, p: Pid, e: Event)
    requires Inv(w, s, own) && Missing(s, p) && Own(e, p) && Enabled(w, s, e)
    requires !(e.StartWrite? || e.WriteExtra? || e.MakeTemp? || e.OpenCacheCopy?)
    ensures MissedBy(w, s, Next(w, s, e), p)
  {
    hide WriteAt, Inv;
    CopyFacts(w, s, own, p);
  }

  /** A compiler on its way always has a next step. */
  lemma NextOwn(w: World, s: State, own: map<Inode, Owner>, p: Pid) returns (e: Event)
    requires Inv(w, s, own) && (Hitting(s, p) || Missing(s, p)) && !s.procs[p].phase.Done?
    ensures Own(e, p) && Enabled(w, s, e) && UniqueTemp(s, e)
  {
    hide Inv;
    var pr := s.procs[p];
    var i := FreshNat(s.data.Keys);
    CopyFacts(w, s, own, p);
    match pr.phase
    case Start => e := Lookup(p);
    case Hit => e := RemoveOutput(p);
    case HitRemoved => e := OpenRecover(p, i);
    case HitCopy(src, _, pos) => e := if pos < |s.data[src]| then Chunk(p, |s.data[src]| - pos) else CopyEnd(p);
    case HitCopied => e := Touch(p);
    case Miss => e := if pr.wantsExtra && !pr.extraDone then WriteExtra(p, i) else StartWrite(p, i);
    case Writing(_, pos) => e := if pos < |w.obj(pr.hash)| then Chunk(p, |w.obj(pr.hash)| - pos) else CopyEnd(p);
    case Written =>
      var n := UnusedName(s, pr.hash);
      e := MakeTemp(p, n, i);
    case TempMade(_) => e := OpenCacheCopy(p, i);
    case CacheCopy(_, src, _, pos) => e := if pos < |s.data[src]| then Chunk(p, |s.data[src]| - pos) else CopyEnd(p);
    case CacheCopied(_) => e := Rename(p);
  }

  /** There is always a name for a temporary that is neither taken nor in use. */
  lemma UnusedName(s: State, h: Hash) returns (n: nat)
    ensures Temp(h, n) !in s.files && forall q :: q in s.procs ==> !Using(s.procs[q].phase, Temp(h, n))
  {
    var taken := set path | path in s.files && path.Temp? :: path.n;
    var used := set q | q in s.procs && UsesName(s.procs[q].phase) :: s.procs[q].phase.t.n;
    n := FreshNat(taken + used);
    assert Temp(h, n) in s.files ==> n in taken;
    forall q | q in s.procs ensures !Using(s.procs[q].phase, Temp(h, n)) {
      if UsesName(s.procs[q].phase) { assert s.procs[q].phase.t.n in used; }
    }
  }

  predicate UsesName(ph: Phase) { (ph.TempMade? || ph.CacheCopy? || ph.CacheCopied?) && ph.t.Temp? }

  /** A compiler by itself, towards a hit. */
  lemma {:induction false} HitRun(w: World, s: State, own: map<Inode, Owner>, p: Pid, es: seq<Event>)
    returns (own': map<Inode, Owner>)
    requires Inv(w, s, own) && Hitting(s, p) && IsRun(w, s, es) && Alone(es, p) && Left(w, s, p) >= 0
    ensures var s' := After(w, s, es);
      Inv(w, s', own') && Hitting(s', p) && s'.procs[p].hash == s.procs[p].hash
      && 0 <= Left(w, s', p) <= Left(w, s, p) - |es|
      && s'.files[Entry(s.procs[p].hash)] == s.files[Entry(s.procs[p].hash)]
    decreases |es|
  {
    hide Next, Enabled, UniqueTemp, Inv, Hitting, Left, Own;
    own' := own;
    HittingFacts(s, p);
    if es != [] {
      HitStep(w, s, own, p, es[0]);
      StepKeepsInv(w, s, es[0], own);
      HittingFacts(Next(w, s, es[0]), p);
      own' := HitRun(w, Next(w, s, es[0]), NextOwner(s, es[0], own), p, es[1..]);
      HittingFacts(After(w, s, es), p);
    }
  }

  lemma HittingFacts(s: State, p: Pid)
    requires Hitting(s, p)
    ensures p in s.procs && Entry(s.procs[p].hash) in s.files
  {
  }

  /** A compiler by itself, towards a new entry. */
  lemma {:induction false} MissRun(w: World, s: State, own: map<Inode, Owner>, p: Pid, es: seq<Event>)
    returns (own': map<Inode, Owner>)
    requires Inv(w, s, own) && Missing(s, p) && IsRun(w, s, es) && Alone(es, p) && Left(w, s, p) >= 0
    ensures var s' := After(w, s, es);
      Inv(w, s', own') && Missing(s', p) && s'.procs[p].hash == s.procs[p].hash
      && 0 <= Left(w, s', p) <= Left(w, s, p) - |es|
    decreases |es|
  {
    hide Next, Enabled, UniqueTemp, Inv, Missing, Left, Own;
    own' := own;
    MissingFacts(s, p);
    if es != [] {
      MissStep(w, s, own, p, es[0]);
      StepKeepsInv(w, s, es[0], own);
      MissingFacts(Next(w, s, es[0]), p);
      own' := MissRun(w, Next(w, s, es[0]), NextOwner(s, es[0], own), p, es[1..]);
      MissingFacts(After(w, s, es), p);
    }
  }

  lemma MissingFacts(s: State, p: Pid)
    requires Missing(s, p)
    ensures p in s.procs
  {
  }

  lemma DoneEnded(w: World, s: State, p: Pid)
    requires p in s.procs && s.procs[p].phase.Done?
    ensures Ended(w, s, p)
  {
  }

  /** From either way it can go on by itself to its end. */
  lemma {:induction false} Finishes(w: World, s: State, own: map<Inode, Owner>, p: Pid) returns (es: seq<Event>)
    requires Inv(w, s, own) && (Hitting(s, p) || Missing(s, p)) && p in s.procs && Left(w, s, p) >= 0
    ensures IsRun(w, s, es) && Alone(es, p) && Ended(w, After(w, s, es), p)
    decreases Left(w, s, p)
  {
    hide Inv, Hitting, Missing, Next, Enabled, UniqueTemp, Own, Ended, Left;
    if s.procs[p].phase.Done? {
      DoneEnded(w, s, p);
      es := [];
    } else {
      var e := NextOwn(w, s, own, p);
      var s' := Next(w, s, e);
      StepKeepsInv(w, s, e, own);
      OnTheWay(w, s, own, p, e);
      var rest := Finishes(w, s', NextOwner(s, e, own), p);
      es := [e] + rest;
      assert es[0] == e && es[1..] == rest;
    }
  }

  lemma OnTheWay(w: World, s: State, own: map<Inode, Owner>, p: Pid, e: Event)
    requires Inv(w, s, own) && (Hitting(s, p) || Missing(s, p)) && p in s.procs && Own(e, p) && Enabled(w, s, e)
    ensures var s' := Next(w, s, e);
      (Hitting(s', p) || Missing(s', p)) && p in s'.procs && 0 <= Left(w, s', p) < Left(w, s, p)
  {
    hide Inv, Next, Enabled, Own;
    if Hitting(s, p) { HitStep(w, s, own, p, e); } else { MissStep(w, s, own, p, e); }
  }

  /** From every reachable state a compiler that has not started yet can finish by itself. */
  lemma CanFinish(w: World, s0: State, pre: seq<Event>, p: Pid) returns (es: seq<Event>)
    requires Init(w, s0) && IsRun(w, s0, pre)
    requires p in After(w, s0, pre).procs && After(w, s0, pre).procs[p].phase.Start?
    ensures IsRun(w, After(w, s0, pre), es) && Alone(es, p) && Ended(w, After(w, After(w, s0, pre), es), p)
  {
    hide Inv, Next, Enabled, UniqueTemp, PhaseOk, Ended, Own;
    var own := InitInv(w, s0);
    own := RunKeepsInv(w, s0, pre, own);
    es := Finishes(w, After(w, s0, pre), own, p);
  }

  /** The most steps a compiler takes by itself. */
  ghost function Bound(w: World, h: Hash): int { 2 * |w.obj(h)| + 10 }

  /**
    From any reachable state in which its entry is visible, a compiler that is not interfered
    with takes no more than Bound steps and, when it has no step left, has finished with a hit,
    its output is the object, and the entry is as it was.
   */
  lemma FoundEndsInHit(w: World, s0: State, pre: seq<Event>, p: Pid, es: seq<Event>)
    requires Init(w, s0) && IsRun(w, s0, pre)
    requires var s := After(w, s0, pre);
      p in s.procs && s.procs[p].phase.Start? && Entry(s.procs[p].hash) in s.files && IsRun(w, s, es) && Alone(es, p)
    ensures var s := After(w, s0, pre); var s', h := After(w, s, es), s.procs[p].hash;
      && |es| <= Bound(w, h) && p in s'.procs
      && (Ended(w, s', p) ==> s'.procs[p].phase == Done(true) && Holds(s', Output(p), w.obj(h)))
      && Holds(s', Entry(h), w.obj(h)) && s'.files[Entry(h)] == s.files[Entry(h)]
  {
    hide Inv, Next, Enabled, UniqueTemp, PhaseOk;
    var own := InitInv(w, s0);
    own := RunKeepsInv(w, s0, pre, own);
    var s := After(w, s0, pre);
    own := HitRun(w, s, own, p, es);
    var s' := After(w, s, es);
    EntryFacts(w, s', own, s.procs[p].hash);
    if Ended(w, s', p) {
      if !s'.procs[p].phase.Done? {
        var e := NextOwn(w, s', own, p);
        assert false;
      }
      DoneFacts(w, s', own, p);
    }
  }

  lemma DoneFacts(w: World, s: State, own: map<Inode, Owner>, p: Pid)
    requires Inv(w, s, own) && p in s.procs && s.procs[p].phase.Done?
    ensures Holds(s, Output(p), w.obj(s.procs[p].hash))
  {
    assert PhaseOk(w, s, own, p);
  }

  /**
    From any reachable state without its entry it takes no more than Bound steps and, when it
    has no step left, has finished with a miss, its output is the object, and so is its new entry.
   */
  lemma MissedLeavesEntry(w: World, s0: State, pre: seq<Event>, p: Pid, es: seq<Event>)
    requires Init(w, s0) && IsRun(w, s0, pre)
    requires var s := After(w, s0, pre);
      p in s.procs && s.procs[p].phase.Start? && Entry(s.procs[p].hash) !in s.files && IsRun(w, s, es) && Alone(es, p)
    ensures var s := After(w, s0, pre); var s', h := After(w, s, es), s.procs[p].hash;
      && |es| <= Bound(w, h) && p in s'.procs
      && (Ended(w, s', p) ==>
            s'.procs[p].phase == Done(false) && Holds(s', Output(p), w.obj(h)) && Holds(s', Entry(h), w.obj(h)))
  {
    hide Inv, Next, Enabled, UniqueTemp, PhaseOk;
    var own := InitInv(w, s0);
    own := RunKeepsInv(w, s0, pre, own);
    var s := After(w, s0, pre);
    own := MissRun(w, s, own, p, es);
    var s' := After(w, s, es);
    EntryFacts(w, s', own, s.procs[p].hash);
    if Ended(w, s', p) {
      if !s'.procs[p].phase.Done? {
        var e := NextOwn(w, s', own, p);
        assert false;
      }
      DoneFacts(w, s', own, p);
    }
  }
}

/**
  The IR-to-object cache shared by concurrent compilers (ldc/driver/cache.cpp,
  writeModule in ldc/driver/toobj.cpp, the pruner in ldc/driver/cache_pruning.d),
  in Copy mode.  The file system is a map from paths to inodes, so that a file
  that is open stays readable after it has been unlinked or replaced; every copy
  goes through in chunks, only rename is atomic.  A process may stop anywhere.
 */
module ObjectCache {

  type Hash = nat
  type Pid = nat
  type Inode = nat
  type Data = seq<int>

  datatype Path = Entry(h: Hash) | Temp(h: Hash, n: nat) | Output(p: Pid) | Extra(p: Pid)

  datatype Phase =
    | Start                                                  // before cacheLookup
    | Hit                                                    // recoverObjectFile: remove the old output
    | HitRemoved                                             // ... open both files
    | HitCopy(src: Inode, dst: Inode, pos: nat)
    | HitCopied                                              // ... touch the entry
    | Miss                                                   // optimise, write .bc/.ll/.s
    | Writing(dst: Inode, pos: nat)                          // writeObjectFile
    | Written                                                // cacheObjectFile: unique temporary
    | TempMade(t: Path)                                      // ... open both files
    | CacheCopy(t: Path, src: Inode, dst: Inode, pos: nat)
    | CacheCopied(t: Path)                                   // ... rename
    | Done(hit: bool)
    | Failed

  datatype Proc = Proc(hash: Hash, wantsExtra: bool, extraDone: bool, phase: Phase)

  /** made: the temporaries created so far and who created each last. */
  datatype State = State(files: map<Path, Inode>, data: map<Inode, Data>, procs: map<Pid, Proc>, made: map<Path, Pid>)

  datatype Event =
    | Lookup(p: Pid)
    | RemoveOutput(p: Pid)
    | OpenRecover(p: Pid, ino: Inode)
    | Chunk(p: Pid, n: nat)
    | CopyEnd(p: Pid)
    | Touch(p: Pid)
    | WriteExtra(p: Pid, ino: Inode)
    | StartWrite(p: Pid, ino: Inode)
    | MakeTemp(p: Pid, n: nat, ino: Inode)
    | OpenCacheCopy(p: Pid, ino: Inode)
    | Rename(p: Pid)
    | Stop(p: Pid)                                           // crash or fatal I/O error
    | Prune(path: Path)

  /** The object and the other outputs of a module are determined by its hash. */
  datatype World = World(obj: Hash -> Data, extra: Hash -> Data)

  // ------------------------------------------------------------- file operations

  function WriteAt(d: Data, pos: nat, chunk: Data): Data {
    if pos > |d| then d + seq(pos - |d|, _ => 0) + chunk
    else if pos + |chunk| < |d| then d[..pos] + chunk + d[pos + |chunk|..]
    else d[..pos] + chunk
  }

  /** Open for writing: truncate the file behind the path, or link a new one. */
  function OpenInode(s: State, path: Path, i: Inode): Inode {
    if path in s.files then s.files[path] else i
  }

  function Opened(s: State, path: Path, i: Inode): State {
    var d := OpenInode(s, path, i);
    s.(files := s.files[path := d], data := s.data[d := []])
  }

  function SetPhase(s: State, p: Pid, ph: Phase): State
    requires p in s.procs
  {
    s.(procs := s.procs[p := s.procs[p].(phase := ph)])
  }

  function Write(s: State, dst: Inode, pos: nat, chunk: Data): State
    requires dst in s.data
  {
    s.(data := s.data[dst := WriteAt(s.data[dst], pos, chunk)])
  }

  predicate Prunable(path: Path) { path.Entry? || path.Temp? }

  // ----------------------------------------------------------------------- steps

  predicate FreshInode(s: State, i: Inode) { i !in s.data }

  predicate Enabled(w: World, s: State, e: Event) {
    match e
    case Prune(path) => Prunable(path) && path in s.files
    case _ => e.p in s.procs && EnabledFor(w, s, e, e.p, s.procs[e.p])
  }

  predicate ChunkEnabled(w: World, s: State, pr: Proc, n: nat) {
    if pr.phase.HitCopy? || pr.phase.CacheCopy? then
      pr.phase.src in s.data && pr.phase.dst in s.data && pr.phase.pos + n <= |s.data[pr.phase.src]|
    else pr.phase.Writing? && pr.phase.dst in s.data && pr.phase.pos + n <= |w.obj(pr.hash)|
  }

  predicate EndEnabled(w: World, s: State, pr: Proc) {
    if pr.phase.HitCopy? || pr.phase.CacheCopy? then
      pr.phase.src in s.data && pr.phase.pos >= |s.data[pr.phase.src]|
    else pr.phase.Writing? && pr.phase.pos == |w.obj(pr.hash)|
  }

  predicate EnabledFor(w: World, s: State, e: Event, p: Pid, pr: Proc) {
    match e
    case Lookup(_) => pr.phase == Start
    case RemoveOutput(_) => pr.phase == Hit
    case OpenRecover(_, i) => pr.phase == HitRemoved && FreshInode(s, i)
    case Chunk(_, n) => ChunkEnabled(w, s, pr, n)
    case CopyEnd(_) => EndEnabled(w, s, pr)
    case Touch(_) => pr.phase == HitCopied
    case WriteExtra(_, i) => pr.phase == Miss && pr.wantsExtra && !pr.extraDone && FreshInode(s, i)
    case StartWrite(_, i) => pr.phase == Miss && (pr.wantsExtra ==> pr.extraDone) && FreshInode(s, i)
    case MakeTemp(_, n, i) => pr.phase == Written && Temp(pr.hash, n) !in s.files && FreshInode(s, i)
    case OpenCacheCopy(_, i) => pr.phase.TempMade? && FreshInode(s, i)
    case Rename(_) => pr.phase.CacheCopied?
    case Stop(_) => true
    case Prune(_) => false
  }

  function OpenRecoverStep(s: State, p: Pid, pr: Proc, i: Inode): State
    requires p in s.procs
  {
    if Entry(pr.hash) !in s.files then SetPhase(s, p, Failed)
    else SetPhase(Opened(s, Output(p), i), p, HitCopy(s.files[Entry(pr.hash)], OpenInode(s, Output(p), i), 0))
  }

  function ChunkStep(w: World, s: State, p: Pid, pr: Proc, n: nat): State
    requires p in s.procs && ChunkEnabled(w, s, pr, n)
  {
    var from := if pr.phase.Writing? then w.obj(pr.hash) else s.data[pr.phase.src];
    SetPhase(Write(s, pr.phase.dst, pr.phase.pos, from[pr.phase.pos..pr.phase.pos + n]), p,
             pr.phase.(pos := pr.phase.pos + n))
  }

  function EndStep(w: World, s: State, p: Pid, pr: Proc): State
    requires p in s.procs && EndEnabled(w, s, pr)
  {
    SetPhase(s, p, if pr.phase.HitCopy? then HitCopied else if pr.phase.CacheCopy? then CacheCopied(pr.phase.t) else Written)
  }

  function MakeTempStep(s: State, p: Pid, pr: Proc, n: nat, i: Inode): State
    requires p in s.procs
  {
    var t := Temp(pr.hash, n);
    SetPhase(Opened(s, t, i).(made := s.made[t := p]), p, TempMade(t))
  }

  function OpenCacheCopyStep(s: State, p: Pid, t: Path, i: Inode): State
    requires p in s.procs
  {
    if Output(p) !in s.files then SetPhase(s, p, Failed)
    else SetPhase(Opened(s, t, i), p, CacheCopy(t, s.files[Output(p)], OpenInode(s, t, i), 0))
  }

  function RenameStep(s: State, p: Pid, h: Hash, t: Path): State
    requires p in s.procs
  {
    if t !in s.files then SetPhase(s, p, Failed)
    else SetPhase(s.(files := (s.files - {t})[Entry(h) := s.files[t]]), p, Done(false))
  }

  function WriteExtraStep(w: World, s: State, p: Pid, pr: Proc, i: Inode): State {
    var d := OpenInode(s, Extra(p), i);
    s.(files := s.files[Extra(p) := d], data := s.data[d := w.extra(pr.hash)], procs := s.procs[p := pr.(extraDone := true)])
  }

  function Next(w: World, s: State, e: Event): State
    requires Enabled(w, s, e)
  {
    if e.Prune? then s.(files := s.files - {e.path}) else NextFor(w, s, e, e.p, s.procs[e.p])
  }

  function NextFor(w: World, s: State, e: Event, p: Pid, pr: Proc): State
    requires p in s.procs && pr == s.procs[p] && EnabledFor(w, s, e, p, pr)
  {
    match e
    case Lookup(_) => SetPhase(s, p, if Entry(pr.hash) in s.files then Hit else Miss)
    case RemoveOutput(_) => SetPhase(s.(files := s.files - {Output(p)}), p, HitRemoved)
    case OpenRecover(_, i) => OpenRecoverStep(s, p, pr, i)
    case Chunk(_, n) => ChunkStep(w, s, p, pr, n)
    case CopyEnd(_) => EndStep(w, s, p, pr)
    case Touch(_) => SetPhase(s, p, if Entry(pr.hash) in s.files then Done(true) else Failed)
    case WriteExtra(_, i) => WriteExtraStep(w, s, p, pr, i)
    case StartWrite(_, i) => SetPhase(Opened(s, Output(p), i), p, Writing(OpenInode(s, Output(p), i), 0))
    case MakeTemp(_, n, i) => MakeTempStep(s, p, pr, n, i)
    case OpenCacheCopy(_, i) => OpenCacheCopyStep(s, p, pr.phase.t, i)
    case Rename(_) => RenameStep(s, p, pr.hash, pr.phase.t)
    case Stop(_) => SetPhase(s, p, Failed)
  }

  // ------------------------------------------------------------------- invariant

  /** Who may still write an inode: nobody once it has become a cache entry. */
  datatype Owner = Frozen(h: Hash) | OutOf(p: Pid) | TempOf(p: Pid) | ExtraOf(p: Pid) | Orphan

  ghost function OwnerOf(made: map<Path, Pid>, path: Path): Owner {
    match path
    case Entry(h) => Frozen(h)
    case Temp(_, _) => if path in made then TempOf(made[path]) else Orphan
    case Output(p) => OutOf(p)
    case Extra(p) => ExtraOf(p)
  }

  ghost predicate LinkOk(s: State, own: map<Inode, Owner>, path: Path)
    requires path in s.files
  {
    s.files[path] in own && own[s.files[path]] == OwnerOf(s.made, path)
  }

  ghost predicate Holds(s: State, path: Path, d: Data) {
    path in s.files && s.files[path] in s.data && s.data[s.files[path]] == d
  }

  ghost predicate Partial(s: State, i: Inode, d: Data, pos: nat) {
    i in s.data && pos <= |d| && s.data[i] == d[..pos]
  }

  ghost predicate PhaseOk(w: World, s: State, own: map<Inode, Owner>, p: Pid)
    requires p in s.procs
  {
    var pr := s.procs[p];
    var o := w.obj(pr.hash);
    && (pr.extraDone ==> Holds(s, Extra(p), w.extra(pr.hash)))
    && match pr.phase
       case HitCopy(src, dst, pos) =>
         && src in own && own[src] == Frozen(pr.hash) && Output(p) in s.files && s.files[Output(p)] == dst
         && Partial(s, dst, o, pos)
       case HitCopied => Holds(s, Output(p), o)
       case Writing(dst, pos) =>
         Output(p) in s.files && s.files[Output(p)] == dst && Partial(s, dst, o, pos) && (pr.wantsExtra ==> pr.extraDone)
       case Written => Holds(s, Output(p), o) && (pr.wantsExtra ==> pr.extraDone)
       case TempMade(t) =>
         Holds(s, Output(p), o) && (pr.wantsExtra ==> pr.extraDone) && t in s.made && s.made[t] == p && t.Temp?
       case CacheCopy(t, src, dst, pos) =>
         && Holds(s, Output(p), o) && (pr.wantsExtra ==> pr.extraDone) && s.files[Output(p)] == src
         && t in s.made && s.made[t] == p && t.Temp? && (t in s.files ==> s.files[t] == dst)
         && dst in own && own[dst] == TempOf(p) && Partial(s, dst, o, pos)
       case CacheCopied(t) =>
         && Holds(s, Output(p), o) && (pr.wantsExtra ==> pr.extraDone)
         && t in s.made && s.made[t] == p && t.Temp? && (t in s.files ==> Holds(s, t, o))
       case Done(hit) => Holds(s, Output(p), o) && (!hit && pr.wantsExtra ==> pr.extraDone)
       case _ => true
  }

  ghost predicate FilesInv(w: World, s: State, own: map<Inode, Owner>) {
    && own.Keys == s.data.Keys
    && (forall i :: i in own && own[i].Frozen? ==> s.data[i] == w.obj(own[i].h))
    && (forall path :: path in s.files ==> LinkOk(s, own, path))
    && (forall a, b :: a in s.files && b in s.files && s.files[a] == s.files[b] ==> a == b)
    && (forall t :: t in s.made ==> t.Temp?)
  }

  ghost predicate Inv(w: World, s: State, own: map<Inode, Owner>) {
    FilesInv(w, s, own) && forall p :: p in s.procs ==> PhaseOk(w, s, own, p)
  }

  /** How ownership changes: new inodes get an owner, a rename freezes one. */
  ghost function NextOwner(s: State, e: Event, own: map<Inode, Owner>): map<Inode, Owner> {
    match e
    case OpenRecover(p, i) => if p in s.procs && Entry(s.procs[p].hash) in s.files && Output(p) !in s.files then own[i := OutOf(p)] else own
    case StartWrite(p, i) => if Output(p) !in s.files then own[i := OutOf(p)] else own
    case WriteExtra(p, i) => if Extra(p) !in s.files then own[i := ExtraOf(p)] else own
    case MakeTemp(p, n, i) => own[i := TempOf(p)]
    case OpenCacheCopy(p, i) =>
      if p in s.procs && s.procs[p].phase.TempMade? && Output(p) in s.files && s.procs[p].phase.t !in s.files then own[i := TempOf(p)] else own
    case Rename(p) =>
      if p in s.procs && s.procs[p].phase.CacheCopied? && s.procs[p].phase.t in s.files
      then own[s.files[s.procs[p].phase.t] := Frozen(s.procs[p].hash)] else own
    case _ => own
  }

  /** A process on its way from creating a temporary to renaming it. */
  predicate Using(ph: Phase, t: Path) {
    (ph.TempMade? || ph.CacheCopy? || ph.CacheCopied?) && ph.t == t
  }

  /** createUniqueFile does not pick a name that another process is still using. */
  ghost predicate UniqueTemp(s: State, e: Event) {
    e.MakeTemp? && e.p in s.procs ==>
      forall q :: q in s.procs ==> !Using(s.procs[q].phase, Temp(s.procs[e.p].hash, e.n))
  }

  /** What another process q can see of a step. */
  ghost predicate Unaffected(s: State, own: map<Inode, Owner>, s': State, own': map<Inode, Owner>, q: Pid)
    requires q in s.procs
  {
    && q in s'.procs && s'.procs[q] == s.procs[q]
    && (forall path :: path == Output(q) || path == Extra(q) ==>
          (path in s'.files <==> path in s.files) && (path in s.files ==> s'.files[path] == s.files[path]))
    && (forall t :: Using(s.procs[q].phase, t) && t in s.made ==> t in s'.made && s'.made[t] == s.made[t])
    && (forall t :: Using(s.procs[q].phase, t) && t in s.made && s.made[t] == q && t in s'.files ==>
          t in s.files && s'.files[t] == s.files[t])
    && (forall i :: i in own && (own[i] == OutOf(q) || own[i] == TempOf(q) || own[i] == ExtraOf(q)) && i in s.data ==>
          i in s'.data && s'.data[i] == s.data[i])
    && (forall i :: i in own && (own[i].Frozen? || own[i] == TempOf(q)) ==> i in own' && own'[i] == own[i])
  }

  lemma Frame(w: World, s: State, own: map<Inode, Owner>, s': State, own': map<Inode, Owner>, q: Pid)
    requires Inv(w, s, own) && q in s.procs && Unaffected(s, own, s', own', q)
    ensures PhaseOk(w, s', own', q)
  {
    assert PhaseOk(w, s, own, q);
    assert Output(q) in s.files ==> LinkOk(s, own, Output(q));
    assert Extra(q) in s.files ==> LinkOk(s, own, Extra(q));
    if s.procs[q].phase.CacheCopied? {
      var t := s.procs[q].phase.t;
      assert t in s.files ==> LinkOk(s, own, t);
    }
  }

  // ------------------------------------------------- what file operations preserve

  /** Dropping links, or changing only processes. */
  lemma FilesRemove(w: World, s: State, own: map<Inode, Owner>, s': State, gone: set<Path>)
    requires FilesInv(w, s, own) && s'.data == s.data && s'.made == s.made && s'.files == s.files - gone
    ensures FilesInv(w, s', own)
  {
    forall path | path in s'.files ensures LinkOk(s', own, path) { assert LinkOk(s, own, path); }
  }

  /** Linking a fresh inode at a path that is no cache entry. */
  lemma FilesLink(w: World, s: State, own: map<Inode, Owner>, s': State, path: Path, i: Inode, d: Data, p: Pid)
    requires FilesInv(w, s, own) && i !in s.data && !path.Entry?
    requires s'.files == s.files[path := i] && s'.data == s.data[i := d]
    requires s'.made == s.made || (path.Temp? && path !in s.files && s'.made == s.made[path := p])
    ensures FilesInv(w, s', own[i := OwnerOf(s'.made, path)])
  {
    var own' := own[i := OwnerOf(s'.made, path)];
    forall q | q in s'.files ensures LinkOk(s', own', q) {
      if q != path { assert LinkOk(s, own, q); }
    }
    forall a, b | a in s'.files && b in s'.files && s'.files[a] == s'.files[b] ensures a == b {
      assert a != path ==> LinkOk(s, own, a);
      assert b != path ==> LinkOk(s, own, b);
    }
  }

  /** Changing the contents of an inode that is not frozen. */
  lemma FilesWrite(w: World, s: State, own: map<Inode, Owner>, s': State, i: Inode, d: Data)
    requires FilesInv(w, s, own) && i in own && !own[i].Frozen?
    requires s'.files == s.files && s'.made == s.made && s'.data == s.data[i := d]
    ensures FilesInv(w, s', own)
  {
    forall q | q in s'.files ensures LinkOk(s', own, q) { assert LinkOk(s, own, q); }
  }

  lemma FilesOpen(w: World, s: State, own: map<Inode, Owner>, s': State, path: Path, i: Inode)
    requires FilesInv(w, s, own) && i !in s.data && !path.Entry?
    requires s'.files == Opened(s, path, i).files && s'.data == Opened(s, path, i).data && s'.made == s.made
    ensures FilesInv(w, s', if path in s.files then own else own[i := OwnerOf(s.made, path)])
  {
    if path in s.files {
      assert LinkOk(s, own, path);
      assert s'.files == s.files;
      FilesWrite(w, s, own, s', s.files[path], []);
    } else {
      FilesLink(w, s, own, s', path, i, [], 0);
    }
  }

  // ------------------------------------------------------------------ one lemma per step

  lemma OpenRecoverIs(w: World, s: State, e: Event, own: map<Inode, Owner>)
    requires e.OpenRecover? && Enabled(w, s, e)
    ensures e.p in s.procs && s.procs[e.p].phase == HitRemoved && e.ino !in s.data
    ensures Next(w, s, e) == OpenRecoverStep(s, e.p, s.procs[e.p], e.ino)
    ensures NextOwner(s, e, own) ==
      if Entry(s.procs[e.p].hash) in s.files && Output(e.p) !in s.files then own[e.ino := OutOf(e.p)] else own
  {
  }

  lemma StartWriteIs(w: World, s: State, e: Event, own: map<Inode, Owner>)
    requires e.StartWrite? && Enabled(w, s, e)
    ensures e.p in s.procs && s.procs[e.p].phase == Miss && e.ino !in s.data
    ensures s.procs[e.p].wantsExtra ==> s.procs[e.p].extraDone
    ensures Next(w, s, e) == SetPhase(Opened(s, Output(e.p), e.ino), e.p, Writing(OpenInode(s, Output(e.p), e.ino), 0))
    ensures NextOwner(s, e, own) == if Output(e.p) !in s.files then own[e.ino := OutOf(e.p)] else own
  {
  }

  lemma WriteExtraIs(w: World, s: State, e: Event, own: map<Inode, Owner>)
    requires e.WriteExtra? && Enabled(w, s, e)
    ensures e.p in s.procs && s.procs[e.p].phase == Miss && e.ino !in s.data
    ensures Next(w, s, e) == WriteExtraStep(w, s, e.p, s.procs[e.p], e.ino)
    ensures NextOwner(s, e, own) == if Extra(e.p) !in s.files then own[e.ino := ExtraOf(e.p)] else own
  {
  }

  lemma MakeTempIs(w: World, s: State, e: Event, own: map<Inode, Owner>)
    requires e.MakeTemp? && Enabled(w, s, e)
    ensures e.p in s.procs && s.procs[e.p].phase == Written && e.ino !in s.data
    ensures Temp(s.procs[e.p].hash, e.n) !in s.files
    ensures Next(w, s, e) == MakeTempStep(s, e.p, s.procs[e.p], e.n, e.ino)
    ensures NextOwner(s, e, own) == own[e.ino := TempOf(e.p)]
  {
  }

  lemma OpenCacheCopyIs(w: World, s: State, e: Event, own: map<Inode, Owner>)
    requires e.OpenCacheCopy? && Enabled(w, s, e)
    ensures e.p in s.procs && s.procs[e.p].phase.TempMade? && e.ino !in s.data
    ensures Next(w, s, e) == OpenCacheCopyStep(s, e.p, s.procs[e.p].phase.t, e.ino)
    ensures NextOwner(s, e, own) ==
      if Output(e.p) in s.files && s.procs[e.p].phase.t !in s.files then own[e.ino := TempOf(e.p)] else own
  {
  }

  lemma StepKeepsInv(w: World, s: State, e: Event, own: map<Inode, Owner>)
    requires Inv(w, s, own) && Enabled(w, s, e) && UniqueTemp(s, e)
    ensures Inv(w, Next(w, s, e), NextOwner(s, e, own))
  {
    hide Inv, Next, NextOwner;
    if e.Prune? { PruneKeeps(w, s, e, own); }
    else if e.Lookup? { LookupKeeps(w, s, e, own); }
    else if e.RemoveOutput? { RemoveKeeps(w, s, e, own); }
    else if e.OpenRecover? { OpenRecoverKeeps(w, s, e, own); }
    else if e.Chunk? { ChunkKeeps(w, s, e, own); }
    else if e.CopyEnd? { CopyEndKeeps(w, s, e, own); }
    else if e.Touch? { TouchKeeps(w, s, e, own); }
    else if e.WriteExtra? { ExtraKeeps(w, s, e, own); }
    else if e.StartWrite? { StartWriteKeeps(w, s, e, own); }
    else if e.MakeTemp? { MakeTempKeeps(w, s, e, own); }
    else if e.OpenCacheCopy? { OpenCacheCopyKeeps(w, s, e, own); }
    else if e.Rename? { RenameKeeps(w, s, e, own); }
    else { StopKeeps(w, s, e, own); }
  }

  /** Steps that change no file but the phase of p. */
  lemma PhaseStep(w: World, s: State, own: map<Inode, Owner>, p: Pid, ph: Phase)
    requires Inv(w, s, own) && p in s.procs && PhaseOk(w, SetPhase(s, p, ph), own, p)
    ensures Inv(w, SetPhase(s, p, ph), own)
  {
    var s' := SetPhase(s, p, ph);
    assert s'.files == s.files - {};
    FilesRemove(w, s, own, s', {});
    forall q | q in s'.procs && q != p ensures PhaseOk(w, s', own, q) { Frame(w, s, own, s', own, q); }
  }

  lemma LookupKeeps(w: World, s: State, e: Event, own: map<Inode, Owner>)
    requires Inv(w, s, own) && e.Lookup? && Enabled(w, s, e)
    ensures Inv(w, Next(w, s, e), NextOwner(s, e, own))
  {
    assert PhaseOk(w, s, own, e.p);
    PhaseStep(w, s, own, e.p, if Entry(s.procs[e.p].hash) in s.files then Hit else Miss);
  }

  lemma StopKeeps(w: World, s: State, e: Event, own: map<Inode, Owner>)
    requires Inv(w, s, own) && e.Stop? && Enabled(w, s, e)
    ensures Inv(w, Next(w, s, e), NextOwner(s, e, own))
  {
    assert PhaseOk(w, s, own, e.p);
    PhaseStep(w, s, own, e.p, Failed);
  }

  lemma TouchKeeps(w: World, s: State, e: Event, own: map<Inode, Owner>)
    requires Inv(w, s, own) && e.Touch? && Enabled(w, s, e)
    ensures Inv(w, Next(w, s, e), NextOwner(s, e, own))
  {
    assert PhaseOk(w, s, own, e.p);
    PhaseStep(w, s, own, e.p, if Entry(s.procs[e.p].hash) in s.files then Done(true) else Failed);
  }

  lemma CopyEndKeeps(w: World, s: State, e: Event, own: map<Inode, Owner>)
    requires Inv(w, s, own) && e.CopyEnd? && Enabled(w, s, e)
    ensures Inv(w, Next(w, s, e), NextOwner(s, e, own))
  {
    assert PhaseOk(w, s, own, e.p);
    var ph, o := s.procs[e.p].phase, w.obj(s.procs[e.p].hash);
    if ph.HitCopy? {
      assert s.data[ph.dst] == o;
      PhaseStep(w, s, own, e.p, HitCopied);
    } else if ph.CacheCopy? {
      assert s.data[ph.dst] == o;
      PhaseStep(w, s, own, e.p, CacheCopied(ph.t));
    } else {
      assert s.data[ph.dst] == o;
      PhaseStep(w, s, own, e.p, Written);
    }
  }

  lemma PruneKeeps(w: World, s: State, e: Event, own: map<Inode, Owner>)
    requires Inv(w, s, own) && e.Prune? && Enabled(w, s, e)
    ensures Inv(w, Next(w, s, e), NextOwner(s, e, own))
  {
    var s' := Next(w, s, e);
    FilesRemove(w, s, own, s', {e.path});
    forall q | q in s'.procs ensures PhaseOk(w, s', own, q) { Frame(w, s, own, s', own, q); }
  }

  lemma RemoveKeeps(w: World, s: State, e: Event, own: map<Inode, Owner>)
    requires Inv(w, s, own) && e.RemoveOutput? && Enabled(w, s, e)
    ensures Inv(w, Next(w, s, e), NextOwner(s, e, own))
  {
    var s' := Next(w, s, e);
    assert PhaseOk(w, s, own, e.p);
    FilesRemove(w, s, own, s', {Output(e.p)});
    forall q | q in s'.procs && q != e.p ensures PhaseOk(w, s', own, q) { Frame(w, s, own, s', own, q); }
  }

  /** A process opens its own output for writing, with contents so far empty. */
  lemma OutputOpened(w: World, s: State, own: map<Inode, Owner>, p: Pid, i: Inode, ph: Phase, s': State)
    requires Inv(w, s, own) && p in s.procs && i !in s.data && s' == SetPhase(Opened(s, Output(p), i), p, ph)
    ensures var own' := if Output(p) in s.files then own else own[i := OutOf(p)];
      && FilesInv(w, s', own') && (forall q :: q in s'.procs && q != p ==> PhaseOk(w, s', own', q))
      && (s.procs[p].extraDone ==> Holds(s', Extra(p), w.extra(s.procs[p].hash)))
  {
    var own' := if Output(p) in s.files then own else own[i := OutOf(p)];
    FilesOpen(w, s, own, s', Output(p), i);
    assert Output(p) in s.files ==> LinkOk(s, own, Output(p));
    assert Extra(p) in s.files ==> LinkOk(s, own, Extra(p));
    assert PhaseOk(w, s, own, p);
    forall q | q in s'.procs && q != p ensures PhaseOk(w, s', own', q) { Frame(w, s, own, s', own', q); }
  }

  lemma OpenRecoverKeeps(w: World, s: State, e: Event, own: map<Inode, Owner>)
    requires Inv(w, s, own) && e.OpenRecover? && Enabled(w, s, e)
    ensures Inv(w, Next(w, s, e), NextOwner(s, e, own))
  {
    hide Next, NextFor, NextOwner, Enabled, EnabledFor;
    OpenRecoverIs(w, s, e, own);
    var p, en := e.p, Entry(s.procs[e.p].hash);
    assert PhaseOk(w, s, own, p);
    if en in s.files {
      assert LinkOk(s, own, en);
      assert Output(p) in s.files ==> LinkOk(s, own, Output(p));
      var ph := HitCopy(s.files[en], OpenInode(s, Output(p), e.ino), 0);
      OutputOpened(w, s, own, p, e.ino, ph, SetPhase(Opened(s, Output(p), e.ino), p, ph));
    } else {
      PhaseStep(w, s, own, p, Failed);
    }
  }

  lemma StartWriteKeeps(w: World, s: State, e: Event, own: map<Inode, Owner>)
    requires Inv(w, s, own) && e.StartWrite? && Enabled(w, s, e)
    ensures Inv(w, Next(w, s, e), NextOwner(s, e, own))
  {
    hide Next, NextFor, NextOwner, Enabled, EnabledFor;
    StartWriteIs(w, s, e, own);
    var ph := Writing(OpenInode(s, Output(e.p), e.ino), 0);
    OutputOpened(w, s, own, e.p, e.ino, ph, SetPhase(Opened(s, Output(e.p), e.ino), e.p, ph));
  }

  lemma ExtraKeeps(w: World, s: State, e: Event, own: map<Inode, Owner>)
    requires Inv(w, s, own) && e.WriteExtra? && Enabled(w, s, e)
    ensures Inv(w, Next(w, s, e), NextOwner(s, e, own))
  {
    hide Next, NextFor, NextOwner, Enabled, EnabledFor;
    WriteExtraIs(w, s, e, own);
    var s', own' := Next(w, s, e), NextOwner(s, e, own);
    assert PhaseOk(w, s, own, e.p);
    if Extra(e.p) in s.files {
      assert LinkOk(s, own, Extra(e.p));
      assert s'.files == s.files;
      FilesWrite(w, s, own, s', s.files[Extra(e.p)], w.extra(s.procs[e.p].hash));
    } else {
      FilesLink(w, s, own, s', Extra(e.p), e.ino, w.extra(s.procs[e.p].hash), e.p);
    }
    forall q | q in s'.procs && q != e.p ensures PhaseOk(w, s', own', q) { Frame(w, s, own, s', own', q); }
  }

  lemma MakeTempKeeps(w: World, s: State, e: Event, own: map<Inode, Owner>)
    requires Inv(w, s, own) && e.MakeTemp? && Enabled(w, s, e) && UniqueTemp(s, e)
    ensures Inv(w, Next(w, s, e), NextOwner(s, e, own))
  {
    hide Next, NextFor, NextOwner, Enabled, EnabledFor;
    MakeTempIs(w, s, e, own);
    TempMadeKeeps(w, s, own, e.p, Temp(s.procs[e.p].hash, e.n), e.ino, Next(w, s, e));
  }

  /** A process creates a temporary with a name nobody else is using. */
  lemma TempMadeKeeps(w: World, s: State, own: map<Inode, Owner>, p: Pid, t: Path, i: Inode, s': State)
    requires Inv(w, s, own) && p in s.procs && s.procs[p].phase == Written && i !in s.data && t.Temp? && t !in s.files
    requires forall q :: q in s.procs ==> !Using(s.procs[q].phase, t)
    requires s' == SetPhase(Opened(s, t, i).(made := s.made[t := p]), p, TempMade(t))
    ensures Inv(w, s', own[i := TempOf(p)])
  {
    var own' := own[i := TempOf(p)];
    FilesLink(w, s, own, s', t, i, [], p);
    TempMadeOwn(w, s, own, p, t, i, s');
    forall q | q in s'.procs && q != p ensures PhaseOk(w, s', own', q) {
      hide PhaseOk;
      Frame(w, s, own, s', own', q);
    }
  }

  lemma TempMadeOwn(w: World, s: State, own: map<Inode, Owner>, p: Pid, t: Path, i: Inode, s': State)
    requires Inv(w, s, own) && p in s.procs && s.procs[p].phase == Written && i !in s.data && t.Temp? && t !in s.files
    requires s' == SetPhase(Opened(s, t, i).(made := s.made[t := p]), p, TempMade(t))
    ensures PhaseOk(w, s', own[i := TempOf(p)], p)
  {
    assert PhaseOk(w, s, own, p);
    assert LinkOk(s, own, Output(p));
    assert Extra(p) in s.files ==> LinkOk(s, own, Extra(p));
  }

  lemma OpenCacheCopyKeeps(w: World, s: State, e: Event, own: map<Inode, Owner>)
    requires Inv(w, s, own) && e.OpenCacheCopy? && Enabled(w, s, e)
    ensures Inv(w, Next(w, s, e), NextOwner(s, e, own))
  {
    hide Next, NextFor, NextOwner, Enabled, EnabledFor;
    OpenCacheCopyIs(w, s, e, own);
    var p, t, i := e.p, s.procs[e.p].phase.t, e.ino;
    assert PhaseOk(w, s, own, p);
    var ph := CacheCopy(t, s.files[Output(p)], OpenInode(s, t, i), 0);
    TempOpened(w, s, own, p, t, i, ph, SetPhase(Opened(s, t, i), p, ph));
    CopyBegun(w, s, own, p, t, i);
  }

  lemma CopyBegun(w: World, s: State, own: map<Inode, Owner>, p: Pid, t: Path, i: Inode)
    requires Inv(w, s, own) && p in s.procs && s.procs[p].phase == TempMade(t) && i !in s.data
    ensures Output(p) in s.files
    ensures var own' := if t in s.files then own else own[i := TempOf(p)];
      PhaseOk(w, SetPhase(Opened(s, t, i), p, CacheCopy(t, s.files[Output(p)], OpenInode(s, t, i), 0)), own', p)
  {
    assert PhaseOk(w, s, own, p);
    assert LinkOk(s, own, Output(p));
    assert t in s.files ==> LinkOk(s, own, t);
    assert Extra(p) in s.files ==> LinkOk(s, own, Extra(p));
  }

  /** A process opens its own temporary for writing. */
  lemma TempOpened(w: World, s: State, own: map<Inode, Owner>, p: Pid, t: Path, i: Inode, ph: Phase, s': State)
    requires Inv(w, s, own) && p in s.procs && i !in s.data && s' == SetPhase(Opened(s, t, i), p, ph)
    requires t in s.made && s.made[t] == p
    ensures var own' := if t in s.files then own else own[i := TempOf(p)];
      FilesInv(w, s', own') && forall q :: q in s'.procs && q != p ==> PhaseOk(w, s', own', q)
  {
    var own' := if t in s.files then own else own[i := TempOf(p)];
    FilesOpen(w, s, own, s', t, i);
    assert t in s.files ==> LinkOk(s, own, t);
    forall q | q in s'.procs && q != p ensures PhaseOk(w, s', own', q) { Frame(w, s, own, s', own', q); }
  }

  /** The rename: the complete temporary becomes the entry and is frozen. */
  lemma FilesRename(w: World, s: State, own: map<Inode, Owner>, s': State, t: Path, h: Hash)
    requires FilesInv(w, s, own) && t in s.files && t in s.made && Holds(s, t, w.obj(h))
    requires s'.files == (s.files - {t})[Entry(h) := s.files[t]] && s'.data == s.data && s'.made == s.made
    ensures FilesInv(w, s', own[s.files[t] := Frozen(h)])
  {
    var own' := own[s.files[t] := Frozen(h)];
    assert LinkOk(s, own, t);
    forall q | q in s'.files ensures LinkOk(s', own', q) {
      if q != Entry(h) { assert LinkOk(s, own, q); }
    }
  }

  lemma Renamed(w: World, s: State, own: map<Inode, Owner>, p: Pid, t: Path, s': State)
    requires Inv(w, s, own) && p in s.procs && s.procs[p].phase == CacheCopied(t) && t in s.files
    requires s' == SetPhase(s.(files := (s.files - {t})[Entry(s.procs[p].hash) := s.files[t]]), p, Done(false))
    ensures Inv(w, s', own[s.files[t] := Frozen(s.procs[p].hash)])
  {
    var own' := own[s.files[t] := Frozen(s.procs[p].hash)];
    assert PhaseOk(w, s, own, p);
    assert LinkOk(s, own, t);
    FilesRename(w, s, own, s', t, s.procs[p].hash);
    forall q | q in s'.procs && q != p ensures PhaseOk(w, s', own', q) { Frame(w, s, own, s', own', q); }
  }

  lemma RenameKeeps(w: World, s: State, e: Event, own: map<Inode, Owner>)
    requires Inv(w, s, own) && e.Rename? && Enabled(w, s, e)
    ensures Inv(w, Next(w, s, e), NextOwner(s, e, own))
  {
    var p, t := e.p, s.procs[e.p].phase.t;
    assert PhaseOk(w, s, own, p);
    if t in s.files {
      Renamed(w, s, own, p, t, Next(w, s, e));
    } else {
      PhaseStep(w, s, own, p, Failed);
    }
  }

  lemma WriteExtends(d: Data, pos: nat, full: Data, n: nat)
    requires pos + n <= |full| && d == full[..pos]
    ensures WriteAt(d, pos, full[pos..pos + n]) == full[..pos + n]
  {
  }

  /** A process appends to an inode only it owns. */
  lemma OwnWrite(w: World, s: State, own: map<Inode, Owner>, p: Pid, dst: Inode, d: Data, ph: Phase, s': State)
    requires Inv(w, s, own) && p in s.procs && dst in own && (own[dst] == OutOf(p) || own[dst] == TempOf(p))
    requires s' == SetPhase(s.(data := s.data[dst := d]), p, ph)
    ensures FilesInv(w, s', own) && (forall q :: q in s'.procs && q != p ==> PhaseOk(w, s', own, q))
    ensures s.procs[p].extraDone ==> Holds(s', Extra(p), w.extra(s.procs[p].hash))
  {
    FilesWrite(w, s, own, s', dst, d);
    assert PhaseOk(w, s, own, p);
    assert Extra(p) in s.files ==> LinkOk(s, own, Extra(p));
    forall q | q in s'.procs && q != p ensures PhaseOk(w, s', own, q) { Frame(w, s, own, s', own, q); }
  }

  lemma ChunkKeeps(w: World, s: State, e: Event, own: map<Inode, Owner>)
    requires Inv(w, s, own) && e.Chunk? && Enabled(w, s, e)
    ensures Inv(w, Next(w, s, e), NextOwner(s, e, own))
  {
    var s', p, pr := Next(w, s, e), e.p, s.procs[e.p];
    var full, dst, pos := w.obj(pr.hash), pr.phase.dst, pr.phase.pos;
    assert PhaseOk(w, s, own, p);
    assert LinkOk(s, own, Output(p));
    WriteExtends(s.data[dst], pos, full, e.n);
    if pr.phase.HitCopy? {
      OwnWrite(w, s, own, p, dst, full[..pos + e.n], HitCopy(pr.phase.src, dst, pos + e.n), s');
    } else if pr.phase.CacheCopy? {
      OwnWrite(w, s, own, p, dst, full[..pos + e.n], CacheCopy(pr.phase.t, pr.phase.src, dst, pos + e.n), s');
    } else {
      OwnWrite(w, s, own, p, dst, full[..pos + e.n], Writing(dst, pos + e.n), s');
    }
  }

  // ----------------------------------------------------------------------- runs

  /** All processes are about to look up; existing entries are complete, nothing is linked twice. */
  ghost predicate Init(w: World, s: State) {
    && s.made == map[]
    && (forall path :: path in s.files ==> s.files[path] in s.data)
    && (forall a, b :: a in s.files && b in s.files && s.files[a] == s.files[b] ==> a == b)
    && (forall h :: Entry(h) in s.files ==> s.data[s.files[Entry(h)]] == w.obj(h))
    && (forall p :: p in s.procs ==> s.procs[p].phase == Start && !s.procs[p].extraDone)
  }

  /** Every event is enabled where it happens, and temporaries get new names. */
  ghost predicate IsRun(w: World, s: State, es: seq<Event>)
    decreases |es|
  {
    es == [] || (Enabled(w, s, es[0]) && UniqueTemp(s, es[0]) && IsRun(w, Next(w, s, es[0]), es[1..]))
  }

  ghost function After(w: World, s: State, es: seq<Event>): State
    requires IsRun(w, s, es)
    decreases |es|
  {
    if es == [] then s else After(w, Next(w, s, es[0]), es[1..])
  }

  ghost function InitOwner(s: State, i: Inode): Owner {
    if path :| path in s.files && s.files[path] == i then OwnerOf(map[], path) else Orphan
  }

  lemma InitInv(w: World, s: State) returns (own: map<Inode, Owner>)
    requires Init(w, s)
    ensures Inv(w, s, own)
  {
    own := map i | i in s.data :: InitOwner(s, i);
    forall path | path in s.files ensures LinkOk(s, own, path) {
      assert own[s.files[path]] == InitOwner(s, s.files[path]);
    }
    forall i | i in own && own[i].Frozen? ensures s.data[i] == w.obj(own[i].h) {
      assert exists path :: path in s.files && s.files[path] == i;
    }
  }

  lemma {:induction false} RunKeepsInv(w: World, s: State, es: seq<Event>, own: map<Inode, Owner>)
    returns (own': map<Inode, Owner>)
    requires Inv(w, s, own) && IsRun(w, s, es)
    ensures Inv(w, After(w, s, es), own')
    decreases |es|
  {
    if es == [] {
      own' := own;
    } else {
      StepKeepsInv(w, s, es[0], own);
      own' := RunKeepsInv(w, Next(w, s, es[0]), es[1..], NextOwner(s, es[0], own));
    }
  }

  /** In every run every visible entry is the complete object for its hash. */
  lemma EntriesComplete(w: World, s: State, es: seq<Event>, h: Hash)
    requires Init(w, s) && IsRun(w, s, es)
    ensures Entry(h) in After(w, s, es).files ==> Holds(After(w, s, es), Entry(h), w.obj(h))
  {
    var own := InitInv(w, s);
    var own' := RunKeepsInv(w, s, es, own);
    var s' := After(w, s, es);
    assert Entry(h) in s'.files ==> LinkOk(s', own', Entry(h));
  }

  /** Every successful writeModule, cached or not, leaves the object an uncached run writes. */
  lemma OutputsCorrect(w: World, s: State, es: seq<Event>, p: Pid)
    requires Init(w, s) && IsRun(w, s, es)
    requires p in After(w, s, es).procs && After(w, s, es).procs[p].phase.Done?
    ensures Holds(After(w, s, es), Output(p), w.obj(After(w, s, es).procs[p].hash))
  {
    var own := InitInv(w, s);
    var own' := RunKeepsInv(w, s, es, own);
    assert PhaseOk(w, After(w, s, es), own', p);
  }

  // ------------------------------------------------------------- the other outputs

  predicate OnHitPath(ph: Phase) {
    ph.Start? || ph.Hit? || ph.HitRemoved? || ph.HitCopy? || ph.HitCopied? || (ph.Done? && ph.hit)
  }

  ghost predicate SameFile(s: State, s': State, path: Path) {
    && (path in s'.files <==> path in s.files)
    && (path in s.files ==> s'.files[path] == s.files[path])
    && (path in s.files && s.files[path] in s.data ==>
          s.files[path] in s'.data && s'.data[s.files[path]] == s.data[s.files[path]])
  }

  /** Until p writes its other outputs they are as they were in s0, and on a hit it never does. */
  ghost predicate ExtrasOk(s0: State, s: State, p: Pid)
    requires p in s.procs
  {
    && (OnHitPath(s.procs[p].phase) ==> !s.procs[p].extraDone)
    && (!s.procs[p].extraDone ==> SameFile(s0, s, Extra(p)))
  }

  ghost predicate ExtrasInv(s0: State, s: State) {
    forall p :: p in s.procs ==> ExtrasOk(s0, s, p)
  }

  /** Opening a file for writing changes no other file. */
  lemma OpenedSame(w: World, s: State, own: map<Inode, Owner>, path: Path, i: Inode, q: Path)
    requires FilesInv(w, s, own) && i !in s.data && q != path
    ensures SameFile(s, Opened(s, path, i), q)
  {
    if q in s.files { assert LinkOk(s, own, q); }
  }

  lemma ChunkSame(w: World, s: State, e: Event, own: map<Inode, Owner>, q: Pid)
    requires Inv(w, s, own) && e.Chunk? && Enabled(w, s, e)
    ensures SameFile(s, Next(w, s, e), Extra(q))
  {
    assert PhaseOk(w, s, own, e.p);
    if Extra(q) in s.files { assert LinkOk(s, own, Extra(q)); }
  }

  /** Only p itself touches its other outputs, by writing them. */
  lemma ExtraUntouched(w: World, s: State, e: Event, own: map<Inode, Owner>, q: Pid)
    requires Inv(w, s, own) && Enabled(w, s, e) && !(e.WriteExtra? && e.p == q)
    ensures SameFile(s, Next(w, s, e), Extra(q))
  {
    hide Inv, FilesInv, PhaseOk, Enabled, EnabledFor, Next, NextFor;
    InvFiles(w, s, own);
    if e.OpenRecover? {
      OpenRecoverIs(w, s, e, own);
      OpenedSame(w, s, own, Output(e.p), e.ino, Extra(q));
    } else if e.StartWrite? {
      StartWriteIs(w, s, e, own);
      OpenedSame(w, s, own, Output(e.p), e.ino, Extra(q));
    } else if e.MakeTemp? {
      MakeTempIs(w, s, e, own);
      OpenedSame(w, s, own, Temp(s.procs[e.p].hash, e.n), e.ino, Extra(q));
    } else if e.OpenCacheCopy? {
      OpenCacheCopyIs(w, s, e, own);
      UsesTemp(w, s, own, e.p);
      assert Using(s.procs[e.p].phase, s.procs[e.p].phase.t);
      OpenedSame(w, s, own, s.procs[e.p].phase.t, e.ino, Extra(q));
    } else if e.WriteExtra? {
      WriteExtraIs(w, s, e, own);
      OpenedSame(w, s, own, Extra(e.p), e.ino, Extra(q));
    } else if e.Chunk? {
      ChunkSame(w, s, e, own, q);
    } else {
      LinksOnly(w, s, e, own, q);
    }
  }

  lemma InvFiles(w: World, s: State, own: map<Inode, Owner>)
    requires Inv(w, s, own)
    ensures FilesInv(w, s, own)
  {
  }

  lemma UsesTemp(w: World, s: State, own: map<Inode, Owner>, p: Pid)
    requires Inv(w, s, own) && p in s.procs
    ensures forall t :: Using(s.procs[p].phase, t) ==> t.Temp?
  {
    assert PhaseOk(w, s, own, p);
  }

  /** Steps that write no data. */
  lemma LinksOnly(w: World, s: State, e: Event, own: map<Inode, Owner>, q: Pid)
    requires Inv(w, s, own) && Enabled(w, s, e)
    requires !e.OpenRecover? && !e.StartWrite? && !e.MakeTemp? && !e.OpenCacheCopy? && !e.WriteExtra? && !e.Chunk?
    ensures SameFile(s, Next(w, s, e), Extra(q))
  {
    hide Inv;
    if e.Rename? {
      UsesTemp(w, s, own, e.p);
      assert Using(s.procs[e.p].phase, s.procs[e.p].phase.t);
    }
  }

  lemma ExtrasStep(w: World, s0: State, s: State, e: Event, own: map<Inode, Owner>, q: Pid)
    requires Inv(w, s, own) && Enabled(w, s, e) && q in s.procs && ExtrasOk(s0, s, q)
    ensures q in Next(w, s, e).procs && ExtrasOk(s0, Next(w, s, e), q)
  {
    hide Inv, SameFile, Next, Enabled;
    var s' := Next(w, s, e);
    ProcStep(w, s, e, q);
    if !(e.WriteExtra? && e.p == q) {
      ExtraUntouched(w, s, e, own, q);
      if !s'.procs[q].extraDone { SameFileTrans(s0, s, s', Extra(q)); }
    }
  }

  /** What a step may do to a process that looks at its phase only. */
  ghost predicate ProcOk(pr: Proc, pr': Proc, wrote: bool) {
    (OnHitPath(pr'.phase) ==> OnHitPath(pr.phase))
    && (if wrote then pr'.extraDone && !OnHitPath(pr'.phase) else pr'.extraDone == pr.extraDone)
  }

  /** The other outputs are written on the miss path only, and no step leads from it to the hit path. */
  lemma ProcStep(w: World, s: State, e: Event, q: Pid)
    requires Enabled(w, s, e) && q in s.procs
    ensures q in Next(w, s, e).procs
    ensures ProcOk(s.procs[q], Next(w, s, e).procs[q], e.WriteExtra? && e.p == q)
  {
    if e.OpenRecover? || e.StartWrite? || e.WriteExtra? || e.MakeTemp? || e.OpenCacheCopy? {
      hide Next, NextFor, NextOwner, Enabled, EnabledFor;
      if e.OpenRecover? { OpenRecoverIs(w, s, e, map[]); }
      else if e.StartWrite? { StartWriteIs(w, s, e, map[]); }
      else if e.WriteExtra? { WriteExtraIs(w, s, e, map[]); }
      else if e.MakeTemp? { MakeTempIs(w, s, e, map[]); }
      else { OpenCacheCopyIs(w, s, e, map[]); }
    } else {
      OtherProcStep(w, s, e, q);
    }
  }

  lemma OtherProcStep(w: World, s: State, e: Event, q: Pid)
    requires Enabled(w, s, e) && q in s.procs
    requires !(e.OpenRecover? || e.StartWrite? || e.WriteExtra? || e.MakeTemp? || e.OpenCacheCopy?)
    ensures q in Next(w, s, e).procs && ProcOk(s.procs[q], Next(w, s, e).procs[q], false)
  {
    hide WriteAt;
  }

  lemma SameFileTrans(a: State, b: State, c: State, path: Path)
    requires SameFile(a, b, path) && SameFile(b, c, path)
    ensures SameFile(a, c, path)
  {
  }

  lemma {:induction false} RunKeepsExtras(w: World, s0: State, s: State, es: seq<Event>, own: map<Inode, Owner>)
    requires Inv(w, s, own) && ExtrasInv(s0, s) && IsRun(w, s, es)
    ensures ExtrasInv(s0, After(w, s, es))
    decreases |es|
  {
    if es != [] {
      var s' := Next(w, s, es[0]);
      StepKeepsInv(w, s, es[0], own);
      StepKeepsProcs(w, s, es[0]);
      forall q | q in s'.procs ensures ExtrasOk(s0, s', q) { ExtrasStep(w, s0, s, es[0], own, q); }
      RunKeepsExtras(w, s0, s', es[1..], NextOwner(s, es[0], own));
    }
  }

  lemma StepKeepsProcs(w: World, s: State, e: Event)
    requires Enabled(w, s, e)
    ensures Next(w, s, e).procs.Keys == s.procs.Keys
  {
  }

  /**
    A successful run leaves the requested .bc/.ll/.s files exactly if it was a miss, or none
    were requested, or they were there, right, from an earlier build.
   */
  lemma ExtrasRightIff(w: World, s: State, es: seq<Event>, p: Pid)
    requires Init(w, s) && IsRun(w, s, es)
    requires p in After(w, s, es).procs && After(w, s, es).procs[p].phase.Done?
    ensures var s', pr := After(w, s, es), After(w, s, es).procs[p];
      (pr.wantsExtra ==> Holds(s', Extra(p), w.extra(pr.hash)))
      <==> (!pr.phase.hit || !pr.wantsExtra || Holds(s, Extra(p), w.extra(pr.hash)))
  {
    var own := InitInv(w, s);
    var own' := RunKeepsInv(w, s, es, own);
    RunKeepsExtras(w, s, s, es, own);
    var s' := After(w, s, es);
    assert ExtrasOk(s, s', p);
    assert PhaseOk(w, s', own', p);
  }
}

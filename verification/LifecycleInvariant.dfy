/** The invariant of the lifecycle, and the proof that every step keeps it. */
module LifecycleInvariant {
  import opened Options
  import opened Lifecycle

  // ---------------------------------------------------------------------
  // Cache and disk agree up to the writes still owed
  // ---------------------------------------------------------------------

  /** The cache once the call in flight has published what it already wrote. */
  function Published(cache: Db, pc: Pc): Db {
    match pc
    case CacheSandbox(sid, r) => PutSandbox(cache, sid, r)
    case CacheContainer(cid, r) => PutContainer(cache, cid, r)
    case _ => cache
  }

  /** The container write the call in flight still owes the disk. */
  function Owed(pc: Pc): Option<(ContainerId, ContainerRecord)> {
    match pc
    case PersistIntent(cid, r) => Some((cid, r))
    case PersistSpawnFailed(cid, r) => Some((cid, r))
    case PersistPid(cid, r, _) => Some((cid, r))
    case PersistStop(cid, r, _) => Some((cid, r))
    case _ => None
  }

  function Pay(d: Db, w: Option<(ContainerId, ContainerRecord)>): Db {
    match w
    case None => d
    case Some((cid, r)) => PutContainer(d, cid, r)
  }

  function PaidByCall(disk: Db, pc: Pc): Db {
    match pc
    case PersistStopped(sid, r, _) => PutSandbox(disk, sid, r)
    case UnlinkSandbox(sid) => DropSandbox(disk, sid)
    case Unlink(cid, _) => DropContainer(disk, cid)
    case _ => Pay(disk, Owed(pc))
  }

  predicate InSync(w: World) {
    Published(w.cache, w.pc) == Pay(PaidByCall(w.disk, w.pc), w.lock)
  }

  // ---------------------------------------------------------------------
  // The parts of the invariant
  // ---------------------------------------------------------------------

  /** Every record is well formed and names a sandbox that has a record too. */
  predicate Referential(d: Db) {
    forall c <- d.containers :: WellFormed(d.containers[c]) && d.containers[c].sandbox in d.sandboxes
  }

  /** A write still owed replaces the file's record legally, and the cache already shows it. */
  predicate OwedOk(w: World, owed: Option<(ContainerId, ContainerRecord)>) {
    owed.Some? ==>
      var (cid, r) := owed.value;
      && cid in w.cache.containers && w.cache.containers[cid] == r
      && cid in w.disk.containers && Legal(w.disk.containers[cid], r)
  }

  /** A live reaper watches the pid its container records, while the container exists. */
  predicate ReapersOk(w: World) {
    && w.reapers.Keys <= w.ever
    && (forall c <- w.reapers :: c in w.cache.containers ==>
          var r := w.cache.containers[c];
          r.pid == w.reapers[c] && r.pid > 0 && (r.state == Running || r.state == Exited))
    && OwedOk(w, w.lock)
    && (w.lock.Some? ==>
          w.lock.value.0 in w.reapers && w.lock.value.1.state == Exited && Serving(w.pc))
  }

  /** The containers of the sandbox being removed are all still to be visited. */
  predicate Covered(w: World, k: Kont, current: set<ContainerId>) {
    match k
    case Return => true
    case CollectNext(_) => true
    case RemoveNext(sid, todo) => |todo| > 0 && AllIn(w, sid, todo, current)
    case LoopNext(sid, todo) => AllIn(w, sid, todo, current)
    case EvictNext(cid, k') => Covered(w, k', current + {cid})
  }

  predicate AllIn(w: World, sid: SandboxId, todo: seq<ContainerId>, current: set<ContainerId>) {
    forall c <- w.cache.containers ::
      w.cache.containers[c].sandbox == sid ==> c in todo || c in current
  }

  /** What is still to be done once the control point is left, and the
      container being removed right now. */
  function PcKont(pc: Pc): Kont {
    match pc
    case Loop(sid, todo) => LoopNext(sid, todo)
    case StopRead(_, _, k) => k
    case StopWait(_, k) => k
    case StopMark(_, _, k) => k
    case PersistStop(_, _, k) => k
    case RemoveCheck(_, k) => k
    case Evict(_, k) => k
    case Unlink(_, k) => k
    case _ => Return
  }

  function PcCurrent(pc: Pc): set<ContainerId> {
    match pc
    case RemoveCheck(cid, _) => {cid}
    case Evict(cid, _) => {cid}
    case _ => {}
  }

  predicate CoverOk(w: World) { Covered(w, PcKont(w.pc), PcCurrent(w.pc)) }

  predicate HasRunning(w: World, cid: ContainerId, pid: nat) {
    && cid in w.cache.containers
    && w.cache.containers[cid].state == Running && w.cache.containers[cid].pid == pid
    && cid !in w.reapers
  }

  predicate Empty(d: Db, sid: SandboxId) {
    forall c <- d.containers :: d.containers[c].sandbox != sid
  }

  /** What holds at each point inside a call. */
  predicate PcOk(w: World) {
    match w.pc
    case Down => w.cache == EMPTY && w.reapers == map[]
    case Opening(files) =>
      && w.reapers == map[] && files <= w.disk.containers.Keys
      && w.cache.sandboxes == w.disk.sandboxes
      && w.cache.containers == w.disk.containers - files
    case Idle => true
    case PersistSandbox(sid, _) => sid !in w.cache.sandboxes && sid !in w.disk.sandboxes
    case CacheSandbox(sid, _) => sid !in w.cache.sandboxes
    case StopSandbox(_, k) => k.Return? || k.CollectNext?
    case PersistStopped(sid, r, k) =>
      (k.Return? || k.CollectNext?) && sid in w.cache.sandboxes && w.cache.sandboxes[sid] == r
      && sid in w.disk.sandboxes
    case Collect(_) => true
    case Loop(_, _) => true
    case EvictSandbox(sid) => Empty(w.cache, sid)
    case UnlinkSandbox(sid) => sid !in w.cache.sandboxes && Empty(w.disk, sid) && sid in w.disk.sandboxes
    case CheckSandbox(_, cid, _, _) => cid !in w.ever
    case PersistContainer(cid, r) =>
      cid !in w.ever && WellFormed(r) && r.state == Created && r.sandbox in w.cache.sandboxes
    case CacheContainer(cid, r) =>
      cid !in w.cache.containers && cid in w.ever && cid !in w.reapers
      && WellFormed(r) && r.state == Created && r.sandbox in w.cache.sandboxes
    case StartRead(_) => true
    case StartMark(cid) => cid in w.cache.containers ==> w.cache.containers[cid].state == Created
    case PersistIntent(cid, r) => OwedOk(w, Owed(w.pc)) && HasRunning(w, cid, 0)
    case Spawn(cid) => HasRunning(w, cid, 0)
    case SpawnFailed(cid, _) => HasRunning(w, cid, 0)
    case PersistSpawnFailed(cid, r) => OwedOk(w, Owed(w.pc)) && r.state == Exited && cid !in w.reapers
    case RecordPid(cid, pid) => HasRunning(w, cid, 0) && pid > 0
    case PersistPid(cid, r, pid) => OwedOk(w, Owed(w.pc)) && HasRunning(w, cid, pid) && pid > 0
    case SpawnReaper(cid, pid) => HasRunning(w, cid, pid) && pid > 0
    case StopRead(_, _, _) => true
    case StopWait(_, _) => true
    case StopMark(cid, _, _) =>
      cid in w.cache.containers && w.cache.containers[cid].state == Running ==> w.cache.containers[cid].pid == 0
    case PersistStop(cid, r, _) => OwedOk(w, Owed(w.pc)) && r.state == Exited && r.pid == 0
    case RemoveCheck(_, _) => true
    case Evict(_, _) => true
    case Unlink(cid, _) => cid !in w.cache.containers
  }

  /** Everything in the invariant except what depends on the control point. */
  predicate Core(w: World) {
    && Referential(w.disk) && Referential(w.cache)
    && w.disk.containers.Keys <= w.ever
    && w.cache.containers.Keys <= w.ever
    && ReapersOk(w)
    && (Serving(w.pc) ==> InSync(w))
  }

  predicate Inv(w: World) {
    && KontsSound(w.pc)
    && Core(w)
    && PcOk(w)
    && CoverOk(w)
  }

  // ---------------------------------------------------------------------
  // The three kinds of step, and what each keeps
  // ---------------------------------------------------------------------

  /** Points with no publication and no write outstanding. */
  predicate Settled(pc: Pc) {
    && Serving(pc) && Owed(pc).None?
    && !pc.CacheSandbox? && !pc.CacheContainer? && !pc.PersistStopped? && !pc.UnlinkSandbox? && !pc.Unlink?
  }

  /** With no write owed and the lock free, cache and disk are the same. */
  lemma {:induction false} NothingOwed(w: World)
    requires Core(w) && Settled(w.pc) && w.lock.None?
    ensures w.cache == w.disk
  {
  }

  /** A step that only moves between settled points. */
  lemma {:induction false} MoveKeepsCore(w: World, pc: Pc)
    requires Core(w) && Settled(w.pc) && Settled(pc)
    ensures Core(w.(pc := pc))
  {
  }

  /** A step that changes one container in the cache and now owes the write. */
  lemma {:induction false} MarkKeepsCore(w: World, cid: ContainerId, r: ContainerRecord, pc: Pc)
    requires Core(w) && Settled(w.pc) && w.lock.None?
    requires cid in w.cache.containers && Legal(w.cache.containers[cid], r) && WellFormed(r)
    requires Serving(pc) && Owed(pc) == Some((cid, r))
    requires cid !in w.reapers
    ensures Core(w.(cache := PutContainer(w.cache, cid, r), pc := pc))
    ensures OwedOk(w.(cache := PutContainer(w.cache, cid, r), pc := pc), Some((cid, r)))
  {
    NothingOwed(w);
  }

  lemma {:induction false} PutsCommute(d: Db, a: Option<(ContainerId, ContainerRecord)>, b: Option<(ContainerId, ContainerRecord)>)
    requires a.Some? && b.Some? && a.value.0 == b.value.0 ==> a == b
    ensures Pay(Pay(d, a), b) == Pay(Pay(d, b), a)
  {
    assert Pay(Pay(d, a), b).containers == Pay(Pay(d, b), a).containers;
  }

  /** The write that was owed reaches the disk. */
  lemma {:induction false} PayKeepsCore(w: World, pc: Pc)
    requires Core(w) && Serving(w.pc) && Owed(w.pc).Some? && OwedOk(w, Owed(w.pc)) && Settled(pc)
    requires Owed(w.pc).value.0 !in w.reapers
    ensures Core(w.(disk := Pay(w.disk, Owed(w.pc)), pc := pc))
  {
  }

  // ---------------------------------------------------------------------
  // Continuations
  // ---------------------------------------------------------------------

  lemma {:induction false} ResumeKeeps(w: World, k: Kont)
    requires Sound(k) && Covered(w, k, {})
    ensures var w' := w.(pc := Resume(k));
      PcOk(w') && CoverOk(w') && KontsSound(w'.pc) && Settled(w'.pc)
  {
    CoveredStable(w, w.(pc := Resume(k)), k, {});
    if k.EvictNext? { assert {} + {k.cid} == {k.cid}; }
  }

  /** Coverage only looks at which containers the cache files under which sandbox. */
  lemma {:induction false} CoveredStable(w: World, w': World, k: Kont, current: set<ContainerId>)
    requires Covered(w, k, current)
    requires forall c <- w'.cache.containers ::
      c in w.cache.containers && w'.cache.containers[c].sandbox == w.cache.containers[c].sandbox
    ensures Covered(w', k, current)
  {
    if k.EvictNext? { CoveredStable(w, w', k.k, current + {k.cid}); }
  }

  lemma {:induction false} CoveredAfterEvict(w: World, w': World, k: Kont, cid: ContainerId, current: set<ContainerId>)
    requires Covered(w, k, current + {cid})
    requires cid !in w'.cache.containers
    requires forall c <- w'.cache.containers ::
      c in w.cache.containers && w'.cache.containers[c].sandbox == w.cache.containers[c].sandbox
    ensures Covered(w', k, current)
  {
    if k.EvictNext? {
      assert current + {cid} + {k.cid} == current + {k.cid} + {cid};
      CoveredAfterEvict(w, w', k.k, cid, current + {k.cid});
    }
  }

  // ---------------------------------------------------------------------
  // Every step keeps the invariant
  // ---------------------------------------------------------------------

  lemma {:induction false} BeginKeepsInv(w: World, call: Call)
    requires Inv(w) && Enabled(w, Begin(call))
    ensures Inv(Apply(w, Begin(call)))
  {
  }

  lemma {:induction false} RunSandboxStepKeepsInv(w: World, o: Oracle)
    requires Inv(w) && Enabled(w, Step(o)) && (w.pc.PersistSandbox? || w.pc.CacheSandbox?)
    ensures Inv(Advance(w, o))
  {
    var w' := Advance(w, o);
    assert w.lock.None? ==> InSync(w');
  }

  lemma {:induction false} StopSandboxStepKeepsInv(w: World, o: Oracle)
    requires Inv(w) && Enabled(w, Step(o)) && w.pc.StopSandbox?
    ensures Inv(Advance(w, o))
  {
    ResumeKeeps(w, w.pc.k);
  }

  lemma {:induction false} PersistStoppedKeepsInv(w: World, o: Oracle)
    requires Inv(w) && Enabled(w, Step(o)) && w.pc.PersistStopped?
    ensures Inv(Advance(w, o))
  {
    ResumeKeeps(Advance(w, o), w.pc.k);
  }

  lemma {:induction false} CollectStepKeepsInv(w: World, o: Oracle)
    requires Inv(w) && Enabled(w, Step(o)) && (w.pc.Collect? || w.pc.Loop?)
    ensures Inv(Advance(w, o))
  {
    MoveKeepsCore(w, Advance(w, o).pc);
  }

  lemma {:induction false} EvictSandboxStepKeepsInv(w: World, o: Oracle)
    requires Inv(w) && Enabled(w, Step(o)) && w.pc.EvictSandbox?
    ensures Inv(Advance(w, o))
  {
    NothingOwed(w);
  }

  lemma {:induction false} UnlinkSandboxStepKeepsInv(w: World, o: Oracle)
    requires Inv(w) && Enabled(w, Step(o)) && w.pc.UnlinkSandbox?
    ensures Inv(Advance(w, o))
  {
    assert w.lock.Some? ==> w.lock.value.0 in w.disk.containers;
  }

  lemma {:induction false} CreateStepKeepsInv(w: World, o: Oracle)
    requires Inv(w) && Enabled(w, Step(o)) && w.pc.PersistContainer?
    ensures Inv(Advance(w, o))
  {
  }

  lemma {:induction false} CheckSandboxKeepsInv(w: World, o: Oracle)
    requires Inv(w) && Enabled(w, Step(o)) && w.pc.CheckSandbox?
    ensures Inv(Advance(w, o))
  {
    MoveKeepsCore(w, Advance(w, o).pc);
  }

  lemma {:induction false} CreateCacheKeepsInv(w: World, o: Oracle)
    requires Inv(w) && Enabled(w, Step(o)) && w.pc.CacheContainer?
    ensures Inv(Advance(w, o))
  {
  }

  /** `start_container`, the steps that change the cache. */
  lemma {:induction false} StartMarkKeepsInv(w: World, o: Oracle)
    requires Inv(w) && Enabled(w, Step(o)) && w.pc.StartMark?
    ensures Inv(Advance(w, o))
  {
    var pc := Advance(w, o).pc;
    if Owed(pc).Some? { MarkKeepsCore(w, w.pc.cid, Owed(pc).value.1, pc); } else { MoveKeepsCore(w, pc); }
  }

  lemma {:induction false} SpawnFailedKeepsInv(w: World, o: Oracle)
    requires Inv(w) && Enabled(w, Step(o)) && w.pc.SpawnFailed?
    ensures Inv(Advance(w, o))
  {
    var pc := Advance(w, o).pc;
    MarkKeepsCore(w, w.pc.cid, pc.rec, pc);
  }

  lemma {:induction false} RecordPidKeepsInv(w: World, o: Oracle)
    requires Inv(w) && Enabled(w, Step(o)) && w.pc.RecordPid?
    ensures Inv(Advance(w, o))
  {
    var pc := Advance(w, o).pc;
    MarkKeepsCore(w, w.pc.cid, pc.rec, pc);
  }

  /** `start_container`, the steps that write the record file. */
  lemma {:induction false} PersistIntentKeepsInv(w: World, o: Oracle)
    requires Inv(w) && Enabled(w, Step(o)) && w.pc.PersistIntent?
    ensures Inv(Advance(w, o))
  {
    PayKeepsCore(w, Advance(w, o).pc);
  }

  lemma {:induction false} PersistPidKeepsInv(w: World, o: Oracle)
    requires Inv(w) && Enabled(w, Step(o)) && w.pc.PersistPid?
    ensures Inv(Advance(w, o))
  {
    PayKeepsCore(w, Advance(w, o).pc);
  }

  lemma {:induction false} PersistFailureKeepsInv(w: World, o: Oracle)
    requires Inv(w) && Enabled(w, Step(o)) && w.pc.PersistSpawnFailed?
    ensures Inv(Advance(w, o))
  {
    PayKeepsCore(w, Advance(w, o).pc);
  }

  lemma {:induction false} StartOtherKeepsInv(w: World, o: Oracle)
    requires Inv(w) && Enabled(w, Step(o)) && (w.pc.StartRead? || w.pc.Spawn?)
    ensures Inv(Advance(w, o))
  {
    MoveKeepsCore(w, Advance(w, o).pc);
  }

  lemma {:induction false} SpawnReaperKeepsInv(w: World, o: Oracle)
    requires Inv(w) && Enabled(w, Step(o)) && w.pc.SpawnReaper?
    ensures Inv(Advance(w, o))
  {
    MoveKeepsCore(w, Idle);
  }

  /** Returning to the caller from a point that changed nothing. */
  lemma {:induction false} ReturnKeepsInv(w: World)
    requires Inv(w) && Settled(w.pc) && PcCurrent(w.pc) == {}
    requires Sound(PcKont(w.pc))
    ensures Inv(w.(pc := Resume(PcKont(w.pc))))
  {
    ResumeKeeps(w, PcKont(w.pc));
    MoveKeepsCore(w, Resume(PcKont(w.pc)));
  }

  lemma {:induction false} StopReadKeepsInv(w: World, o: Oracle)
    requires Inv(w) && Enabled(w, Step(o)) && w.pc.StopRead?
    ensures Inv(Advance(w, o))
  {
    var w' := Advance(w, o);
    if w.pc.cid !in w.cache.containers || w.cache.containers[w.pc.cid].state != Running {
      ReturnKeepsInv(w);
    } else {
      CoveredStable(w, w', w.pc.k, {});
      MoveKeepsCore(w, w'.pc);
    }
  }

  lemma {:induction false} StopWaitKeepsInv(w: World, o: Oracle)
    requires Inv(w) && Enabled(w, Step(o)) && w.pc.StopWait?
    ensures Inv(Advance(w, o))
  {
    ReturnKeepsInv(w);
  }

  lemma {:induction false} StopMarkKeepsInv(w: World, o: Oracle)
    requires Inv(w) && Enabled(w, Step(o)) && w.pc.StopMark?
    ensures Inv(Advance(w, o))
  {
    if w.pc.cid !in w.cache.containers || w.cache.containers[w.pc.cid].state != Running {
      ReturnKeepsInv(w);
    } else {
      StopMarksKeepsInv(w, o);
    }
  }

  lemma {:induction false} StopMarksKeepsInv(w: World, o: Oracle)
    requires Inv(w) && Enabled(w, Step(o)) && w.pc.StopMark?
    requires w.pc.cid in w.cache.containers && w.cache.containers[w.pc.cid].state == Running
    ensures Inv(Advance(w, o))
  {
    var w' := Advance(w, o);
    StopMarkKeepsCover(w, o);
    MarkKeepsCore(w, w.pc.cid, w'.pc.rec, w'.pc);
  }

  lemma {:induction false} StopMarkKeepsCover(w: World, o: Oracle)
    requires Inv(w) && Enabled(w, Step(o)) && w.pc.StopMark?
    requires w.pc.cid in w.cache.containers && w.cache.containers[w.pc.cid].state == Running
    ensures CoverOk(Advance(w, o))
  {
    CoveredStable(w, Advance(w, o), w.pc.k, {});
  }

  lemma {:induction false} PersistStopKeepsInv(w: World, o: Oracle)
    requires Inv(w) && Enabled(w, Step(o)) && w.pc.PersistStop?
    ensures Inv(Advance(w, o))
  {
    var k, w' := w.pc.k, Advance(w, o);
    CoveredStable(w, w', k, {});
    ResumeKeeps(w', k);
    PayKeepsCore(w, w'.pc);
  }

  lemma {:induction false} RemoveCheckKeepsInv(w: World, o: Oracle)
    requires Inv(w) && Enabled(w, Step(o)) && w.pc.RemoveCheck?
    ensures Inv(Advance(w, o))
  {
    if w.pc.cid !in w.cache.containers {
      AlreadyRemovedKeepsInv(w, o);
    } else {
      RemoveCheckKeepsCover(w, o);
      MoveKeepsCore(w, Advance(w, o).pc);
    }
  }

  lemma {:induction false} RemoveCheckKeepsCover(w: World, o: Oracle)
    requires Inv(w) && Enabled(w, Step(o)) && w.pc.RemoveCheck? && w.pc.cid in w.cache.containers
    ensures CoverOk(Advance(w, o))
  {
    assert {} + {w.pc.cid} == {w.pc.cid};
    CoveredStable(w, Advance(w, o), w.pc.k, {w.pc.cid});
  }

  lemma {:induction false} AlreadyRemovedKeepsInv(w: World, o: Oracle)
    requires Inv(w) && Enabled(w, Step(o)) && w.pc.RemoveCheck? && w.pc.cid !in w.cache.containers
    ensures Inv(Advance(w, o))
  {
    var k, w' := w.pc.k, Advance(w, o);
    assert {} + {w.pc.cid} == {w.pc.cid};
    CoveredAfterEvict(w, w', k, w.pc.cid, {});
    ResumeKeeps(w', k);
    MoveKeepsCore(w, w'.pc);
  }

  lemma {:induction false} EvictKeepsCore(w: World, cid: ContainerId, k: Kont)
    requires Core(w) && Settled(w.pc) && w.lock.None?
    ensures Core(w.(cache := DropContainer(w.cache, cid), pc := Unlink(cid, k)))
  {
    NothingOwed(w);
  }

  lemma {:induction false} EvictKeepsInv(w: World, o: Oracle)
    requires Inv(w) && Enabled(w, Step(o)) && w.pc.Evict?
    ensures Inv(Advance(w, o))
  {
    assert {} + {w.pc.cid} == {w.pc.cid};
    EvictKeepsCore(w, w.pc.cid, w.pc.k);
    CoveredAfterEvict(w, Advance(w, o), w.pc.k, w.pc.cid, {});
  }

  lemma {:induction false} UnlinkKeepsInv(w: World, o: Oracle)
    requires Inv(w) && Enabled(w, Step(o)) && w.pc.Unlink?
    ensures Inv(Advance(w, o))
  {
    var w' := Advance(w, o);
    CoveredStable(w, w', w.pc.k, {});
    ResumeKeeps(w', w.pc.k);
    assert w.lock.Some? ==> w.lock.value.0 != w.pc.cid;
  }

  /** A reaper never meets the container whose write the call in flight owes. */
  lemma {:induction false} ReaperMeetsNoDebt(w: World, cid: ContainerId)
    requires Inv(w) && cid in w.reapers && w.lock.None?
    requires cid in w.cache.containers && w.cache.containers[cid].state == Running
    ensures Owed(w.pc).Some? ==> Owed(w.pc).value.0 != cid
    ensures Serving(w.pc)
    ensures cid in w.disk.containers && w.disk.containers[cid] == w.cache.containers[cid]
  {
    if w.pc.CacheContainer? || w.pc.CacheSandbox? {
      assert Published(w.cache, w.pc) == w.disk;
    } else if w.pc.Unlink? {
      assert DropContainer(w.disk, w.pc.cid) == w.cache;
    }
  }

  lemma {:induction false} ReaperLockKeepsCore(w: World, e: Event)
    requires Inv(w) && Enabled(w, e) && e.ReaperLock?
    ensures Core(Apply(w, e))
  {
    var cid := e.cid;
    if cid in w.cache.containers && w.cache.containers[cid].state == Running {
      ReaperMeetsNoDebt(w, cid);
    }
  }

  lemma {:induction false} ReaperLockKeepsPcOk(w: World, e: Event)
    requires Inv(w) && Enabled(w, e) && e.ReaperLock?
    ensures PcOk(Apply(w, e))
  {
    var cid := e.cid;
    if cid in w.cache.containers && w.cache.containers[cid].state == Running {
      ReaperMeetsNoDebt(w, cid);
    }
  }

  lemma {:induction false} ReaperLockKeepsInv(w: World, e: Event)
    requires Inv(w) && Enabled(w, e) && e.ReaperLock?
    ensures Inv(Apply(w, e))
  {
    ReaperLockKeepsCore(w, e);
    ReaperLockKeepsPcOk(w, e);
    ReaperKeepsCover(w, e);
  }

  lemma {:induction false} ReaperKeepsCover(w: World, e: Event)
    requires Inv(w) && Enabled(w, e) && (e.ReaperLock? || e.ReaperWrite?)
    ensures CoverOk(Apply(w, e))
  {
    CoveredStable(w, Apply(w, e), PcKont(w.pc), PcCurrent(w.pc));
  }

  lemma {:induction false} ReaperWriteKeepsInv(w: World)
    requires Inv(w) && Enabled(w, ReaperWrite)
    ensures Inv(Apply(w, ReaperWrite))
  {
    ReaperWriteKeepsCore(w);
    ReaperKeepsCover(w, ReaperWrite);
  }

  lemma {:induction false} ReaperWriteKeepsCore(w: World)
    requires Inv(w) && Enabled(w, ReaperWrite)
    ensures Core(Apply(w, ReaperWrite))
  {
    PutsCommute(w.disk, Owed(w.pc), w.lock);
  }

  lemma {:induction false} CrashAndOpenKeepInv(w: World, e: Event)
    requires Inv(w) && Enabled(w, e) && (e.Crash? || e.OpenStart? || e.OpenDone?)
    ensures Inv(Apply(w, e))
  {
  }

  lemma {:induction false} OpenFileKeepsInv(w: World, e: Event)
    requires Inv(w) && Enabled(w, e) && e.OpenFile?
    ensures Inv(Apply(w, e))
  {
    OpenFileKeepsPcOk(w, e);
  }

  lemma {:induction false} OpenFileKeepsPcOk(w: World, e: Event)
    requires Inv(w) && Enabled(w, e) && e.OpenFile?
    ensures PcOk(Apply(w, e))
  {
  }

  lemma {:induction false} StepKeepsInv(w: World, e: Event)
    requires Inv(w) && Enabled(w, e)
    ensures Inv(Apply(w, e))
  {
    match e
    case Begin(call) => BeginKeepsInv(w, call);
    case Step(o) => AdvanceKeepsInv(w, o);
    case ReaperLock(_, _, _, _) => ReaperLockKeepsInv(w, e);
    case ReaperWrite => ReaperWriteKeepsInv(w);
    case OpenFile(_, _, _) => OpenFileKeepsInv(w, e);
    case _ => CrashAndOpenKeepInv(w, e);
  }

  lemma {:induction false} AdvanceKeepsInv(w: World, o: Oracle)
    requires Inv(w) && Enabled(w, Step(o))
    ensures Inv(Advance(w, o))
  {
    if OnSandbox(w.pc) {
      SandboxStepKeepsInv(w, o);
    } else if InStart(w.pc) {
      StartStepKeepsInv(w, o);
    } else {
      ContainerStepKeepsInv(w, o);
    }
  }

  predicate OnSandbox(pc: Pc) {
    || pc.PersistSandbox? || pc.CacheSandbox? || pc.StopSandbox? || pc.PersistStopped?
    || pc.Collect? || pc.Loop? || pc.EvictSandbox? || pc.UnlinkSandbox?
  }

  predicate InStart(pc: Pc) {
    || pc.StartRead? || pc.StartMark? || pc.PersistIntent? || pc.Spawn? || pc.SpawnFailed?
    || pc.PersistSpawnFailed? || pc.RecordPid? || pc.PersistPid? || pc.SpawnReaper?
  }

  lemma {:induction false} SandboxStepKeepsInv(w: World, o: Oracle)
    requires Inv(w) && Enabled(w, Step(o)) && OnSandbox(w.pc)
    ensures Inv(Advance(w, o))
  {
    match w.pc
    case PersistSandbox(_, _) => RunSandboxStepKeepsInv(w, o);
    case CacheSandbox(_, _) => RunSandboxStepKeepsInv(w, o);
    case StopSandbox(_, _) => StopSandboxStepKeepsInv(w, o);
    case PersistStopped(_, _, _) => PersistStoppedKeepsInv(w, o);
    case Collect(_) => CollectStepKeepsInv(w, o);
    case Loop(_, _) => CollectStepKeepsInv(w, o);
    case EvictSandbox(_) => EvictSandboxStepKeepsInv(w, o);
    case UnlinkSandbox(_) => UnlinkSandboxStepKeepsInv(w, o);
    case _ =>
  }

  lemma {:induction false} StartStepKeepsInv(w: World, o: Oracle)
    requires Inv(w) && Enabled(w, Step(o)) && InStart(w.pc)
    ensures Inv(Advance(w, o))
  {
    match w.pc
    case StartRead(_) => StartOtherKeepsInv(w, o);
    case StartMark(_) => StartMarkKeepsInv(w, o);
    case PersistIntent(_, _) => PersistIntentKeepsInv(w, o);
    case Spawn(_) => StartOtherKeepsInv(w, o);
    case SpawnFailed(_, _) => SpawnFailedKeepsInv(w, o);
    case RecordPid(_, _) => RecordPidKeepsInv(w, o);
    case PersistSpawnFailed(_, _) => PersistFailureKeepsInv(w, o);
    case PersistPid(_, _, _) => PersistPidKeepsInv(w, o);
    case SpawnReaper(_, _) => SpawnReaperKeepsInv(w, o);
    case _ =>
  }

  lemma {:induction false} ContainerStepKeepsInv(w: World, o: Oracle)
    requires Inv(w) && Enabled(w, Step(o)) && !OnSandbox(w.pc) && !InStart(w.pc)
    ensures Inv(Advance(w, o))
  {
    match w.pc
    case CheckSandbox(_, _, _, _) => CheckSandboxKeepsInv(w, o);
    case PersistContainer(_, _) => CreateStepKeepsInv(w, o);
    case CacheContainer(_, _) => CreateCacheKeepsInv(w, o);
    case StopRead(_, _, _) => StopReadKeepsInv(w, o);
    case StopWait(_, _) => StopWaitKeepsInv(w, o);
    case StopMark(_, _, _) => StopMarkKeepsInv(w, o);
    case PersistStop(_, _, _) => PersistStopKeepsInv(w, o);
    case RemoveCheck(_, _) => RemoveCheckKeepsInv(w, o);
    case Evict(_, _) => EvictKeepsInv(w, o);
    case Unlink(_, _) => UnlinkKeepsInv(w, o);
    case _ =>
  }
}

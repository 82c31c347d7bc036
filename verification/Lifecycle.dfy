/** The crash-only container lifecycle of the fake backend, as a labelled
    transition system.

    One event is one atomic step of the program: a section under the cache
    lock, or one tmp+rename write or unlink of a record file. At most one API
    call is in flight; reaper threads and `kill -9` may strike between any two
    steps. */
module Lifecycle {

  import opened Options

  datatype SandboxId = SandboxId(name: string)
  datatype ContainerId = ContainerId(name: string)

  datatype SandboxState = Ready | NotReady
  datatype SandboxRecord = SandboxRecord(config: string, state: SandboxState, createdAt: int)

  datatype ContainerState = Created | Running | Exited | Unknown
  /** `pid == 0` means: no process recorded. */
  datatype ContainerRecord = ContainerRecord(
    sandbox: SandboxId, config: string, state: ContainerState,
    createdAt: int, startedAt: int, finishedAt: int,
    exitCode: int, reason: string, message: string, pid: nat)

  /** The two record maps; used for the in-memory cache and for the disk. */
  datatype Db = Db(sandboxes: map<SandboxId, SandboxRecord>, containers: map<ContainerId, ContainerRecord>)

  const EMPTY := Db(map[], map[])

  function PutSandbox(d: Db, s: SandboxId, r: SandboxRecord): Db { d.(sandboxes := d.sandboxes[s := r]) }
  function PutContainer(d: Db, c: ContainerId, r: ContainerRecord): Db { d.(containers := d.containers[c := r]) }
  function DropSandbox(d: Db, s: SandboxId): Db { d.(sandboxes := d.sandboxes - {s}) }
  function DropContainer(d: Db, c: ContainerId): Db { d.(containers := d.containers - {c}) }

  // ---------------------------------------------------------------------
  // Records and how they may change
  // ---------------------------------------------------------------------

  function NewContainer(sid: SandboxId, config: string, now: int): ContainerRecord {
    ContainerRecord(sid, config, Created, now, 0, 0, 0, "", "", 0)
  }

  function Starting(r: ContainerRecord, now: int): ContainerRecord {
    r.(state := Running, startedAt := now, pid := 0, reason := "starting")
  }

  function SpawnFailure(r: ContainerRecord, why: string, now: int): ContainerRecord {
    r.(state := Exited, finishedAt := now, exitCode := -1, reason := "spawn-failed", message := why)
  }

  function WithPid(r: ContainerRecord, pid: nat): ContainerRecord {
    r.(pid := pid, reason := "")
  }

  function Reaped(r: ContainerRecord, code: int, reason: string, now: int): ContainerRecord {
    r.(state := Exited, exitCode := code, finishedAt := now, reason := reason)
  }

  function Stopped(r: ContainerRecord, grace: int, now: int): ContainerRecord {
    r.(state := Exited, finishedAt := now, exitCode := if grace > 0 then 128 + 15 else 128 + 9, reason := "stopped")
  }

  /** What `open` makes of one record it finds on disk. */
  function Recover(r: ContainerRecord, alive: bool, now: int): ContainerRecord {
    if r.state == Running then
      if r.pid > 0 && !alive then
        r.(state := Exited, exitCode := -1, reason := "lost-exit-reaped-elsewhere", finishedAt := now)
      else if r.pid == 0 then
        r.(state := Exited, exitCode := -1, reason := "lost-start-window", finishedAt := now)
      else r
    else r
  }

  predicate WellFormed(r: ContainerRecord) {
    && r.state != Unknown
    && (r.state == Created ==> r.pid == 0 && r.startedAt == 0 && r.finishedAt == 0 && r.exitCode == 0)
  }

  /** The only ways a persisted record may be replaced by another one:
      Created to Running without a pid, Running gaining its pid, Running to
      Exited. Everything fixed at creation stays, and so do the pid and start
      time once the container exits. */
  predicate Legal(a: ContainerRecord, b: ContainerRecord) {
    && a.sandbox == b.sandbox && a.config == b.config && a.createdAt == b.createdAt
    && match (a.state, b.state)
       case (Created, Running) => b.pid == 0 && b.finishedAt == a.finishedAt && b.exitCode == a.exitCode
       case (Running, Running) => a.pid == 0 < b.pid && b == a.(pid := b.pid, reason := b.reason)
       case (Running, Exited) => a.pid == b.pid && a.startedAt == b.startedAt
       case _ => false
  }

  // ---------------------------------------------------------------------
  // Control states
  // ---------------------------------------------------------------------

  /** What a nested call returns to. `remove_sandbox` calls `stop_sandbox`,
      then `stop_container` and `remove_container` per container;
      `remove_container` calls `stop_container` on a Running container. */
  datatype Kont =
    | Return
    | CollectNext(sid: SandboxId)
    | RemoveNext(sid: SandboxId, todo: seq<ContainerId>)
    | LoopNext(sid: SandboxId, todo: seq<ContainerId>)
    | EvictNext(cid: ContainerId, k: Kont)

  datatype Pc =
    | Down
    | Opening(files: set<ContainerId>)
    | Idle
    | PersistSandbox(sid: SandboxId, srec: SandboxRecord)
    | CacheSandbox(sid: SandboxId, srec: SandboxRecord)
    | StopSandbox(sid: SandboxId, k: Kont)
    | PersistStopped(sid: SandboxId, srec: SandboxRecord, k: Kont)
    | Collect(sid: SandboxId)
    | Loop(sid: SandboxId, todo: seq<ContainerId>)
    | EvictSandbox(sid: SandboxId)
    | UnlinkSandbox(sid: SandboxId)
    | CheckSandbox(sid: SandboxId, cid: ContainerId, config: string, now: int)
    | PersistContainer(cid: ContainerId, rec: ContainerRecord)
    | CacheContainer(cid: ContainerId, rec: ContainerRecord)
    | StartRead(cid: ContainerId)
    | StartMark(cid: ContainerId)
    | PersistIntent(cid: ContainerId, rec: ContainerRecord)
    | Spawn(cid: ContainerId)
    | SpawnFailed(cid: ContainerId, why: string)
    | PersistSpawnFailed(cid: ContainerId, rec: ContainerRecord)
    | RecordPid(cid: ContainerId, pid: nat)
    | PersistPid(cid: ContainerId, rec: ContainerRecord, pid: nat)
    | SpawnReaper(cid: ContainerId, pid: nat)
    | StopRead(cid: ContainerId, grace: int, k: Kont)
    | StopWait(cid: ContainerId, k: Kont)
    | StopMark(cid: ContainerId, grace: int, k: Kont)
    | PersistStop(cid: ContainerId, rec: ContainerRecord, k: Kont)
    | RemoveCheck(cid: ContainerId, k: Kont)
    | Evict(cid: ContainerId, k: Kont)
    | Unlink(cid: ContainerId, k: Kont)

  function Resume(k: Kont): Pc
    requires k.RemoveNext? ==> |k.todo| > 0
  {
    match k
    case Return => Idle
    case CollectNext(sid) => Collect(sid)
    case RemoveNext(sid, todo) => RemoveCheck(todo[0], LoopNext(sid, todo[1..]))
    case LoopNext(sid, todo) => Loop(sid, todo)
    case EvictNext(cid, k') => Evict(cid, k')
  }

  /** Shape of a continuation: `RemoveNext` is pushed with the container it removes. */
  predicate Sound(k: Kont) {
    match k
    case RemoveNext(_, todo) => |todo| > 0
    case EvictNext(_, k') => Sound(k')
    case _ => true
  }

  /** `disk` and `ever` survive a crash; the rest dies with the process.
      `ever` is the set of container ids that ever had a record file, and
      `lock` is the write a reaper still owes while it holds the cache lock. */
  datatype World = World(
    cache: Db, disk: Db, ever: set<ContainerId>,
    reapers: map<ContainerId, nat>,
    lock: Option<(ContainerId, ContainerRecord)>,
    pc: Pc)

  // ---------------------------------------------------------------------
  // Events
  // ---------------------------------------------------------------------

  datatype Call =
    | RunSandboxCall(sid: SandboxId, config: string, now: int)
    | StopSandboxCall(sid: SandboxId)
    | RemoveSandboxCall(sid: SandboxId)
    | CreateContainerCall(sid: SandboxId, cid: ContainerId, config: string, now: int)
    | StartContainerCall(cid: ContainerId)
    | StopContainerCall(cid: ContainerId, grace: int)
    | RemoveContainerCall(cid: ContainerId)

  /** Answers from outside the model: the clock, the process spawner (`pid`),
      the descriptor table (`fdsOk`: log file, pipes and dups could be set up), and the order in which the cache lists
      the containers of a sandbox (`listing`). */
  datatype Oracle = Oracle(now: int, pid: Option<nat>, fdsOk: bool, why: string, listing: seq<ContainerId>)

  datatype Event =
    | Begin(call: Call)
    | Step(o: Oracle)
    | ReaperLock(cid: ContainerId, code: int, reason: string, now: int)
    | ReaperWrite
    | Crash
    | OpenStart
    | OpenFile(cid: ContainerId, alive: bool, now: int)
    | OpenDone

  function Entry(call: Call): Pc {
    match call
    case RunSandboxCall(sid, config, now) => PersistSandbox(sid, SandboxRecord(config, Ready, now))
    case StopSandboxCall(sid) => StopSandbox(sid, Return)
    case RemoveSandboxCall(sid) => StopSandbox(sid, CollectNext(sid))
    case CreateContainerCall(sid, cid, config, now) => CheckSandbox(sid, cid, config, now)
    case StartContainerCall(cid) => StartRead(cid)
    case StopContainerCall(cid, grace) => StopRead(cid, grace, Return)
    case RemoveContainerCall(cid) => RemoveCheck(cid, Return)
  }

  /** Ids come from `new_id`, so a call never brings one that was used before. */
  predicate Fresh(w: World, call: Call) {
    match call
    case RunSandboxCall(sid, _, _) => sid !in w.disk.sandboxes && sid !in w.cache.sandboxes
    case CreateContainerCall(_, cid, _, _) => cid !in w.ever
    case _ => true
  }

  /** Steps that touch only the disk or the process table do not take the cache lock. */
  predicate TakesLock(pc: Pc) {
    !(pc.PersistSandbox? || pc.PersistStopped? || pc.Loop? || pc.UnlinkSandbox? || pc.PersistContainer?
      || pc.PersistIntent? || pc.Spawn? || pc.PersistSpawnFailed? || pc.PersistPid? || pc.SpawnReaper?
      || pc.PersistStop? || pc.Unlink?)
  }

  /** `listing` names exactly the containers that the cache files under `sid`. */
  predicate Lists(w: World, sid: SandboxId, listing: seq<ContainerId>) {
    && (forall c <- listing :: c in w.cache.containers && w.cache.containers[c].sandbox == sid)
    && (forall c <- w.cache.containers :: w.cache.containers[c].sandbox == sid ==> c in listing)
  }

  predicate Serving(pc: Pc) { !pc.Down? && !pc.Opening? }

  predicate CanStep(w: World, o: Oracle) {
    && Serving(w.pc) && !w.pc.Idle?
    && (TakesLock(w.pc) ==> w.lock.None?)
    && (w.pc.Collect? ==> Lists(w, w.pc.sid, o.listing))
    && (o.pid.Some? ==> o.pid.value > 0)
  }

  predicate Enabled(w: World, e: Event) {
    match e
    case Begin(call) => w.pc.Idle? && Fresh(w, call)
    case Step(o) => CanStep(w, o)
    case ReaperLock(cid, _, _, _) => cid in w.reapers && w.lock.None?
    case ReaperWrite => w.lock.Some?
    case Crash => !w.pc.Down?
    case OpenStart => w.pc.Down?
    case OpenFile(cid, _, _) => w.pc.Opening? && cid in w.pc.files && cid in w.disk.containers
    case OpenDone => w.pc.Opening? && w.pc.files == {}
  }

  predicate KontsSound(pc: Pc) {
    match pc
    case StopSandbox(_, k) => Sound(k)
    case PersistStopped(_, _, k) => Sound(k)
    case StopRead(_, _, k) => Sound(k)
    case StopWait(_, k) => Sound(k)
    case StopMark(_, _, k) => Sound(k)
    case PersistStop(_, _, k) => Sound(k)
    case RemoveCheck(_, k) => Sound(k)
    case Evict(_, k) => Sound(k)
    case Unlink(_, k) => Sound(k)
    case _ => true
  }

  /** Where a call goes once the record file it owes is written. */
  function AfterWrite(pc: Pc): Pc
    requires KontsSound(pc)
  {
    match pc
    case PersistSandbox(sid, r) => CacheSandbox(sid, r)
    case PersistStopped(_, _, k) => Resume(k)
    case PersistContainer(cid, r) => CacheContainer(cid, r)
    case PersistIntent(cid, _) => Spawn(cid)
    case PersistSpawnFailed(_, _) => Idle
    case PersistPid(cid, _, pid) => SpawnReaper(cid, pid)
    case PersistStop(_, _, k) => Resume(k)
    case _ => pc
  }

  /** One step of the call in flight, case by case as the code reads. */
  function Advance(w: World, o: Oracle): World
    requires CanStep(w, o) && KontsSound(w.pc)
  {
    var cs := w.cache.containers;
    match w.pc
    // run_sandbox: persist, then publish
    case PersistSandbox(sid, r) => w.(disk := PutSandbox(w.disk, sid, r), pc := AfterWrite(w.pc))
    case CacheSandbox(sid, r) => w.(cache := PutSandbox(w.cache, sid, r), pc := Idle)
    // stop_sandbox
    case StopSandbox(sid, k) =>
      if sid !in w.cache.sandboxes || w.cache.sandboxes[sid].state == NotReady then w.(pc := Resume(k))
      else
        var r := w.cache.sandboxes[sid].(state := NotReady);
        w.(cache := PutSandbox(w.cache, sid, r), pc := PersistStopped(sid, r, k))
    case PersistStopped(sid, r, _) => w.(disk := PutSandbox(w.disk, sid, r), pc := AfterWrite(w.pc))
    // remove_sandbox
    case Collect(sid) => w.(pc := if sid in w.cache.sandboxes then Loop(sid, o.listing) else Idle)
    case Loop(sid, todo) =>
      w.(pc := if todo == [] then EvictSandbox(sid) else StopRead(todo[0], 0, RemoveNext(sid, todo)))
    case EvictSandbox(sid) =>
      if sid !in w.cache.sandboxes then w.(pc := Idle)
      else w.(cache := DropSandbox(w.cache, sid), pc := UnlinkSandbox(sid))
    case UnlinkSandbox(sid) => w.(disk := DropSandbox(w.disk, sid), pc := Idle)
    // create_container
    case CheckSandbox(sid, cid, config, now) =>
      w.(pc := if sid in w.cache.sandboxes && w.cache.sandboxes[sid].state == Ready
               then PersistContainer(cid, NewContainer(sid, config, now)) else Idle)
    case PersistContainer(cid, r) =>
      w.(disk := PutContainer(w.disk, cid, r), ever := w.ever + {cid}, pc := AfterWrite(w.pc))
    case CacheContainer(cid, r) => w.(cache := PutContainer(w.cache, cid, r), pc := Idle)
    // start_container
    case StartRead(cid) =>
      w.(pc := if cid in cs && cs[cid].state == Created then StartMark(cid) else Idle)
    case StartMark(cid) =>
      if cid !in cs || !o.fdsOk then w.(pc := Idle)
      else
        var r := Starting(cs[cid], o.now);
        w.(cache := PutContainer(w.cache, cid, r), pc := PersistIntent(cid, r))
    case PersistIntent(cid, r) => w.(disk := PutContainer(w.disk, cid, r), pc := AfterWrite(w.pc))
    case Spawn(cid) =>
      w.(pc := match o.pid
               case None => SpawnFailed(cid, o.why)
               case Some(pid) => if o.fdsOk then RecordPid(cid, pid) else Idle)
    case SpawnFailed(cid, why) =>
      if cid !in cs then w.(pc := Idle)
      else
        var r := SpawnFailure(cs[cid], why, o.now);
        w.(cache := PutContainer(w.cache, cid, r), pc := PersistSpawnFailed(cid, r))
    case PersistSpawnFailed(cid, r) => w.(disk := PutContainer(w.disk, cid, r), pc := AfterWrite(w.pc))
    case RecordPid(cid, pid) =>
      if cid !in cs then w.(pc := Idle)
      else
        var r := WithPid(cs[cid], pid);
        w.(cache := PutContainer(w.cache, cid, r), pc := PersistPid(cid, r, pid))
    case PersistPid(cid, r, _) => w.(disk := PutContainer(w.disk, cid, r), pc := AfterWrite(w.pc))
    case SpawnReaper(cid, pid) => w.(reapers := w.reapers[cid := pid], pc := Idle)
    // stop_container: signals change no record; the wait may end at any time
    case StopRead(cid, grace, k) =>
      if cid !in cs || cs[cid].state != Running then w.(pc := Resume(k))
      else w.(pc := if cs[cid].pid > 0 then StopWait(cid, k) else StopMark(cid, grace, k))
    case StopWait(cid, k) => w.(pc := Resume(k))
    case StopMark(cid, grace, k) =>
      if cid !in cs || cs[cid].state != Running then w.(pc := Resume(k))
      else
        var r := Stopped(cs[cid], grace, o.now);
        w.(cache := PutContainer(w.cache, cid, r), pc := PersistStop(cid, r, k))
    case PersistStop(cid, r, _) => w.(disk := PutContainer(w.disk, cid, r), pc := AfterWrite(w.pc))
    // remove_container
    case RemoveCheck(cid, k) =>
      if cid !in cs then w.(pc := Resume(k))
      else if cs[cid].state == Running then w.(pc := StopRead(cid, 0, EvictNext(cid, k)))
      else w.(pc := Evict(cid, k))
    case Evict(cid, k) => w.(cache := DropContainer(w.cache, cid), pc := Unlink(cid, k))
    case Unlink(cid, k) => w.(disk := DropContainer(w.disk, cid), pc := Resume(k))
    case Down => w
    case Opening(_) => w
    case Idle => w
  }

  function Apply(w: World, e: Event): World
    requires Enabled(w, e) && KontsSound(w.pc)
  {
    match e
    case Begin(call) => w.(pc := Entry(call))
    case Step(o) => Advance(w, o)
    case ReaperLock(cid, code, reason, now) =>
      if cid in w.cache.containers && w.cache.containers[cid].state == Running then
        var r := Reaped(w.cache.containers[cid], code, reason, now);
        w.(cache := PutContainer(w.cache, cid, r), lock := Some((cid, r)))
      else w.(reapers := w.reapers - {cid})
    case ReaperWrite =>
      var (cid, r) := w.lock.value;
      w.(disk := PutContainer(w.disk, cid, r), lock := None, reapers := w.reapers - {cid})
    case Crash => w.(cache := EMPTY, reapers := map[], lock := None, pc := Down)
    case OpenStart => w.(cache := w.disk.(containers := map[]), pc := Opening(w.disk.containers.Keys))
    case OpenFile(cid, alive, now) =>
      var r := Recover(w.disk.containers[cid], alive, now);
      w.(cache := PutContainer(w.cache, cid, r), disk := PutContainer(w.disk, cid, r),
         pc := Opening(w.pc.files - {cid}))
    case OpenDone => w.(pc := Idle)
  }

  predicate Initial(w: World) {
    w == World(EMPTY, EMPTY, {}, map[], None, Down)
  }

  /** A run, with crashes and recoveries in it. */
  ghost predicate IsRun(ws: seq<World>, es: seq<Event>) {
    && |ws| == |es| + 1
    && Initial(ws[0])
    && forall i {:trigger es[i]} | 0 <= i < |es| :: Takes(ws[i], es[i], ws[i + 1])
  }

  predicate Takes(w: World, e: Event, w': World) {
    Enabled(w, e) && KontsSound(w.pc) && w' == Apply(w, e)
  }
}

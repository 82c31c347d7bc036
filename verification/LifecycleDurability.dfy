/** What a client may rely on: a record stays until its removal is asked for,
    and when `stop_container` really stops. */
module LifecycleDurability {
  import opened Options
  import opened Lifecycle
  import opened LifecycleInvariant
  import opened LifecycleSafety

  // ---------------------------------------------------------------------
  // Which removal a step belongs to
  // ---------------------------------------------------------------------

  datatype Removal = NoRemoval | OfContainer(cid: ContainerId) | OfSandbox(sid: SandboxId)

  /** The removal that `remove_container` of c serves when it returns to k. */
  function FromRemove(c: ContainerId, k: Kont): Removal
    decreases k
  {
    match k
    case Return => OfContainer(c)
    case CollectNext(sid) => OfSandbox(sid)
    case RemoveNext(sid, _) => OfSandbox(sid)
    case LoopNext(sid, _) => OfSandbox(sid)
    case EvictNext(cid, k') => FromRemove(cid, k')
  }

  /** The removal that a stop serves when it returns to k. */
  function FromStop(k: Kont): Removal {
    match k
    case Return => NoRemoval
    case CollectNext(sid) => OfSandbox(sid)
    case RemoveNext(sid, _) => OfSandbox(sid)
    case LoopNext(sid, _) => OfSandbox(sid)
    case EvictNext(cid, k') => FromRemove(cid, k')
  }

  function RemovalOf(pc: Pc): Removal {
    match pc
    case StopSandbox(_, k) => FromStop(k)
    case PersistStopped(_, _, k) => FromStop(k)
    case Collect(sid) => OfSandbox(sid)
    case Loop(sid, _) => OfSandbox(sid)
    case EvictSandbox(sid) => OfSandbox(sid)
    case UnlinkSandbox(sid) => OfSandbox(sid)
    case StopRead(_, _, k) => FromStop(k)
    case StopWait(_, k) => FromStop(k)
    case StopMark(_, _, k) => FromStop(k)
    case PersistStop(_, _, k) => FromStop(k)
    case RemoveCheck(c, k) => FromRemove(c, k)
    case Evict(c, k) => FromRemove(c, k)
    case Unlink(c, k) => FromRemove(c, k)
    case _ => NoRemoval
  }

  /** The containers a removal has yet to unlink. */
  function KontPending(k: Kont): set<ContainerId> {
    match k
    case RemoveNext(_, todo) => set c | c in todo
    case LoopNext(_, todo) => set c | c in todo
    case EvictNext(c, k') => {c} + KontPending(k')
    case _ => {}
  }

  function Pending(pc: Pc): set<ContainerId> {
    match pc
    case Loop(_, todo) => set c | c in todo
    case StopRead(_, _, k) => KontPending(k)
    case StopWait(_, k) => KontPending(k)
    case StopMark(_, _, k) => KontPending(k)
    case PersistStop(_, _, k) => KontPending(k)
    case RemoveCheck(c, k) => {c} + KontPending(k)
    case Evict(c, k) => {c} + KontPending(k)
    case Unlink(c, k) => {c} + KontPending(k)
    case _ => {}
  }

  /** `remove_container` returns to the caller or to the loop of
      `remove_sandbox`. */
  predicate RemoveKont(k: Kont) { k.Return? || k.LoopNext? }

  predicate StopKont(k: Kont) { k.Return? || k.RemoveNext? || (k.EvictNext? && RemoveKont(k.k)) }

  predicate KontsFit(pc: Pc) {
    match pc
    case StopRead(_, _, k) => StopKont(k)
    case StopWait(_, k) => StopKont(k)
    case StopMark(_, _, k) => StopKont(k)
    case PersistStop(_, _, k) => StopKont(k)
    case RemoveCheck(_, k) => RemoveKont(k)
    case Evict(_, k) => RemoveKont(k)
    case Unlink(_, k) => RemoveKont(k)
    case StopSandbox(_, k) => k.Return? || k.CollectNext?
    case PersistStopped(_, _, k) => k.Return? || k.CollectNext?
    case _ => true
  }

  /** A file of this container, if there is one, names this sandbox; there will
      be no other. */
  predicate Belongs(w: World, s: SandboxId, c: ContainerId) {
    c in w.ever && (c in w.disk.containers ==> w.disk.containers[c].sandbox == s)
  }

  /** The removal of a sandbox visits containers of that sandbox only. */
  predicate RemovalOk(w: World) {
    && KontsFit(w.pc)
    && (RemovalOf(w.pc).OfSandbox? ==> forall c <- Pending(w.pc) :: Belongs(w, RemovalOf(w.pc).sid, c))
  }

  /** A step goes on with its removal or ends it, and finds no more containers
      to remove, except where the sandbox's containers are listed. */
  predicate GoesOn(pc: Pc, pc': Pc) {
    && KontsFit(pc')
    && (RemovalOf(pc') == RemovalOf(pc) || RemovalOf(pc').NoRemoval?)
    && (!pc.Collect? ==> Pending(pc') <= Pending(pc))
  }

  predicate InStop(pc: Pc) { pc.StopRead? || pc.StopWait? || pc.StopMark? || pc.PersistStop? }

  predicate InRemove(pc: Pc) { pc.RemoveCheck? || pc.Evict? || pc.Unlink? }

  lemma {:induction false} ResumeGoesOn(pc: Pc, k: Kont)
    requires InStop(pc) && StopKont(k) && Sound(k) && RemovalOf(pc) == FromStop(k) && Pending(pc) == KontPending(k)
    ensures GoesOn(pc, Resume(k))
  {
  }

  lemma {:induction false} StopGoesOn(w: World, o: Oracle)
    requires CanStep(w, o) && KontsSound(w.pc) && KontsFit(w.pc) && InStop(w.pc)
    ensures GoesOn(w.pc, Advance(w, o).pc)
  {
    ResumeGoesOn(w.pc, w.pc.k);
  }

  lemma {:induction false} RemoveGoesOn(w: World, o: Oracle)
    requires CanStep(w, o) && KontsSound(w.pc) && KontsFit(w.pc) && InRemove(w.pc)
    ensures GoesOn(w.pc, Advance(w, o).pc)
  {
  }

  lemma {:induction false} RestGoesOn(w: World, o: Oracle)
    requires CanStep(w, o) && KontsSound(w.pc) && KontsFit(w.pc) && !InStop(w.pc) && !InRemove(w.pc)
    ensures GoesOn(w.pc, Advance(w, o).pc)
  {
  }

  lemma {:induction false} StepKeepsRemoval(w: World, o: Oracle)
    requires CanStep(w, o) && KontsSound(w.pc) && KontsFit(w.pc)
    ensures GoesOn(w.pc, Advance(w, o).pc)
  {
    if InStop(w.pc) { StopGoesOn(w, o); } else if InRemove(w.pc) { RemoveGoesOn(w, o); } else { RestGoesOn(w, o); }
  }

  lemma {:induction false} ListedBelong(w: World, o: Oracle, c: ContainerId)
    requires Inv(w) && Enabled(w, Step(o)) && w.pc.Collect? && c in Pending(Advance(w, o).pc)
    ensures Belongs(Advance(w, o), w.pc.sid, c)
  {
    NothingOwed(w);
  }

  lemma {:induction false} BelongsStays(w: World, e: Event, s: SandboxId, c: ContainerId)
    requires Inv(w) && Enabled(w, e) && Belongs(w, s, c)
    ensures Belongs(Apply(w, e), s, c)
  {
    EventIsFileStep(w, e, c);
  }

  lemma {:induction false} EventKeepsRemovalOk(w: World, e: Event)
    requires Inv(w) && Enabled(w, e) && RemovalOk(w)
    ensures RemovalOk(Apply(w, e))
  {
    var w' := Apply(w, e);
    if e.Step? {
      StepKeepsRemoval(w, e.o);
      forall c | c in Pending(w'.pc) && RemovalOf(w'.pc).OfSandbox?
        ensures Belongs(w', RemovalOf(w'.pc).sid, c)
      {
        if w.pc.Collect? { ListedBelong(w, e.o, c); } else { BelongsStays(w, e, RemovalOf(w.pc).sid, c); }
      }
    } else if e.ReaperLock? || e.ReaperWrite? {
      assert w'.pc == w.pc;
      forall c | c in Pending(w.pc) && RemovalOf(w.pc).OfSandbox?
        ensures Belongs(w', RemovalOf(w.pc).sid, c)
      {
        BelongsStays(w, e, RemovalOf(w.pc).sid, c);
      }
    }
  }

  lemma {:induction false} RemovalOkAlongRun(ws: seq<World>, es: seq<Event>, i: nat)
    requires IsRun(ws, es) && i < |ws|
    ensures RemovalOk(ws[i])
  {
    if i > 0 {
      RemovalOkAlongRun(ws, es, i - 1);
      InvAlongRun(ws, es, i - 1);
      assert Takes(ws[i - 1], es[i - 1], ws[i]);
      EventKeepsRemovalOk(ws[i - 1], es[i - 1]);
    }
  }

  // ---------------------------------------------------------------------
  // A record stays until its removal is asked for
  // ---------------------------------------------------------------------

  /** The call in flight removes the container or its sandbox. */
  predicate Removing(pc: Pc, c: ContainerId, s: SandboxId) {
    RemovalOf(pc) == OfContainer(c) || RemovalOf(pc) == OfSandbox(s)
  }

  predicate AsksRemoval(e: Event, c: ContainerId, s: SandboxId) {
    e == Begin(RemoveContainerCall(c)) || e == Begin(RemoveSandboxCall(s))
  }

  /** Nothing but such a call begins such a removal. */
  lemma {:induction false} RemovalIsAskedFor(w: World, e: Event, c: ContainerId, s: SandboxId)
    requires Inv(w) && Enabled(w, e) && RemovalOk(w) && !Removing(w.pc, c, s)
    ensures Removing(Apply(w, e).pc, c, s) ==> AsksRemoval(e, c, s)
  {
    if e.Step? { StepKeepsRemoval(w, e.o); }
  }

  /** Only such a removal deletes a record's file. */
  lemma {:induction false} OnlyRemovalDeletes(w: World, e: Event, c: ContainerId)
    requires Inv(w) && Enabled(w, e) && RemovalOk(w)
    requires c in w.disk.containers && c !in Apply(w, e).disk.containers
    ensures e.Step? && w.pc.Unlink? && w.pc.cid == c && Removing(w.pc, c, w.disk.containers[c].sandbox)
  {
    if e.Step? {
      OnlyUnlinkDeletes(w, e.o, c);
      assert c in Pending(w.pc);
    }
  }

  lemma {:induction false} OnlyUnlinkDeletes(w: World, o: Oracle, c: ContainerId)
    requires Enabled(w, Step(o)) && KontsSound(w.pc)
    requires c in w.disk.containers && c !in Advance(w, o).disk.containers
    ensures w.pc.Unlink? && w.pc.cid == c
  {
  }

  predicate LegalPath(p: seq<ContainerRecord>) {
    p != [] && forall k :: 0 < k < |p| ==> Legal(p[k - 1], p[k])
  }

  /** From any point of any run, through crashes and recoveries, a container's
      file stays and changes by legal transitions only, until somebody asks for
      the removal of the container or of its sandbox. */
  lemma {:induction false} FileSurvives(ws: seq<World>, es: seq<Event>, i: nat, j: nat, c: ContainerId)
    returns (path: seq<ContainerRecord>)
    requires IsRun(ws, es) && i <= j < |ws| && c in ws[i].disk.containers
    requires !Removing(ws[i].pc, c, ws[i].disk.containers[c].sandbox)
    requires forall k {:trigger es[k]} :: i <= k < j ==> !AsksRemoval(es[k], c, ws[i].disk.containers[c].sandbox)
    ensures c in ws[j].disk.containers && !Removing(ws[j].pc, c, ws[i].disk.containers[c].sandbox)
    ensures LegalPath(path) && path[0] == ws[i].disk.containers[c] && path[|path| - 1] == ws[j].disk.containers[c]
    ensures ws[j].disk.containers[c].sandbox == ws[i].disk.containers[c].sandbox
    decreases j
  {
    if i == j {
      path := [ws[i].disk.containers[c]];
    } else {
      path := FileSurvives(ws, es, i, j - 1, c);
      FileSurvivesOnce(ws, es, j - 1, c);
      var before, after := ws[j - 1].disk.containers[c], ws[j].disk.containers[c];
      if after != before { path := path + [after]; }
    }
  }

  lemma {:induction false} FileSurvivesOnce(ws: seq<World>, es: seq<Event>, i: nat, c: ContainerId)
    requires IsRun(ws, es) && i < |es| && c in ws[i].disk.containers
    requires var s := ws[i].disk.containers[c].sandbox; !Removing(ws[i].pc, c, s) && !AsksRemoval(es[i], c, s)
    ensures c in ws[i + 1].disk.containers && !Removing(ws[i + 1].pc, c, ws[i].disk.containers[c].sandbox)
    ensures var a, b := ws[i].disk.containers[c], ws[i + 1].disk.containers[c];
      a.sandbox == b.sandbox && (a == b || Legal(a, b))
  {
    InvAlongRun(ws, es, i);
    RemovalOkAlongRun(ws, es, i);
    assert Takes(ws[i], es[i], ws[i + 1]);
    FileSurvivesEvent(ws[i], es[i], c);
  }

  lemma {:induction false} FileSurvivesEvent(w: World, e: Event, c: ContainerId)
    requires Inv(w) && Enabled(w, e) && RemovalOk(w) && c in w.disk.containers
    requires !Removing(w.pc, c, w.disk.containers[c].sandbox) && !AsksRemoval(e, c, w.disk.containers[c].sandbox)
    ensures var w' := Apply(w, e);
      && c in w'.disk.containers && !Removing(w'.pc, c, w.disk.containers[c].sandbox)
      && (w'.disk.containers[c] == w.disk.containers[c] || Legal(w.disk.containers[c], w'.disk.containers[c]))
  {
    if c !in Apply(w, e).disk.containers { OnlyRemovalDeletes(w, e, c); }
    RemovalIsAskedFor(w, e, c, w.disk.containers[c].sandbox);
    EventIsFileStep(w, e, c);
  }

  /** What a client saw of a container at any point is never lost: unless the
      removal of the container or of its sandbox was under way or is asked for,
      its file is there at every later point, reached by legal transitions from
      what was seen, or from the record that was being replaced by what was
      seen when the write had not come yet; and it is visible again whenever
      the program answers calls. */
  lemma {:induction false} RecordSurvives(ws: seq<World>, es: seq<Event>, i: nat, j: nat, c: ContainerId)
    returns (path: seq<ContainerRecord>)
    requires IsRun(ws, es) && i <= j < |ws| && c in ws[i].cache.containers
    requires !Removing(ws[i].pc, c, ws[i].cache.containers[c].sandbox)
    requires forall k {:trigger es[k]} :: i <= k < j ==> !AsksRemoval(es[k], c, ws[i].cache.containers[c].sandbox)
    ensures LegalPath(path) && c in ws[j].disk.containers && path[|path| - 1] == ws[j].disk.containers[c]
    ensures path[0] == ws[i].cache.containers[c] || (BeingWritten(ws[i], c) && Legal(path[0], ws[i].cache.containers[c]))
    ensures ws[j].pc.Idle? ==> c in ws[j].cache.containers
  {
    VisibleIsDurable(ws, es, i);
    path := FileSurvives(ws, es, i, j, c);
    if ws[j].pc.Idle? { CacheIsDisk(ws, es, j); }
  }

  // ---------------------------------------------------------------------
  // Sandboxes likewise
  // ---------------------------------------------------------------------

  lemma {:induction false} OnlyUnlinkDeletesSandbox(w: World, o: Oracle, s: SandboxId)
    requires Enabled(w, Step(o)) && KontsSound(w.pc)
    requires s in w.disk.sandboxes && s !in Advance(w, o).disk.sandboxes
    ensures w.pc == UnlinkSandbox(s)
  {
  }

  lemma {:induction false} OthersKeepSandbox(w: World, e: Event, s: SandboxId)
    requires Enabled(w, e) && KontsSound(w.pc) && !e.Step? && s in w.disk.sandboxes
    requires RemovalOf(w.pc) != OfSandbox(s) && e != Begin(RemoveSandboxCall(s))
    ensures s in Apply(w, e).disk.sandboxes && RemovalOf(Apply(w, e).pc) != OfSandbox(s)
  {
  }

  lemma {:induction false} SandboxSurvivesEvent(w: World, e: Event, s: SandboxId)
    requires Enabled(w, e) && KontsSound(w.pc) && KontsFit(w.pc) && s in w.disk.sandboxes
    requires RemovalOf(w.pc) != OfSandbox(s) && e != Begin(RemoveSandboxCall(s))
    ensures s in Apply(w, e).disk.sandboxes && RemovalOf(Apply(w, e).pc) != OfSandbox(s)
  {
    if e.Step? {
      StepKeepsRemoval(w, e.o);
      if s !in Advance(w, e.o).disk.sandboxes { OnlyUnlinkDeletesSandbox(w, e.o, s); }
    } else {
      OthersKeepSandbox(w, e, s);
    }
  }

  /** A sandbox seen at any point keeps its file until its removal is asked for. */
  lemma {:induction false} SandboxSurvives(ws: seq<World>, es: seq<Event>, i: nat, j: nat, s: SandboxId)
    requires IsRun(ws, es) && i <= j < |ws| && s in ws[i].cache.sandboxes && RemovalOf(ws[i].pc) != OfSandbox(s)
    requires forall k {:trigger es[k]} :: i <= k < j ==> es[k] != Begin(RemoveSandboxCall(s))
    ensures s in ws[j].disk.sandboxes && RemovalOf(ws[j].pc) != OfSandbox(s)
    decreases j
  {
    if i == j {
      VisibleIsDurable(ws, es, i);
    } else {
      SandboxSurvives(ws, es, i, j - 1, s);
      InvAlongRun(ws, es, j - 1);
      RemovalOkAlongRun(ws, es, j - 1);
      assert Takes(ws[j - 1], es[j - 1], ws[j]);
      SandboxSurvivesEvent(ws[j - 1], es[j - 1], s);
    }
  }

  // ---------------------------------------------------------------------
  // When a stop really stops
  // ---------------------------------------------------------------------

  /** An execution of one `stop_container`: its own steps, and reapers. */
  predicate IsStop(ws: seq<World>, es: seq<Event>, c: ContainerId, grace: int) {
    && |ws| == |es| + 1 && es != [] && es[0] == Begin(StopContainerCall(c, grace))
    && (forall i {:trigger es[i]} | 0 <= i < |es| :: Takes(ws[i], es[i], ws[i + 1]))
    && (forall i | 0 < i < |es| :: (es[i].Step? || es[i].ReaperLock? || es[i].ReaperWrite?) && !ws[i].pc.Idle?)
    && ws[|es|].pc.Idle?
  }

  predicate IsRunning(w: World, c: ContainerId) { c in w.cache.containers && w.cache.containers[c].state == Running }

  predicate HasPid(w: World, c: ContainerId) { IsRunning(w, c) && w.cache.containers[c].pid > 0 }

  const NO_ANSWER := Oracle(0, None, true, "", [])

  /** The wait may end at once. */
  lemma {:induction false} FreeStopGivesUp(w: World, c: ContainerId, grace: int)
    requires w.pc == StopRead(c, grace, Return) && w.lock.None? && HasPid(w, c)
    ensures var w' := w.(pc := StopWait(c, Return));
      Takes(w, Step(NO_ANSWER), w') && Takes(w', Step(NO_ANSWER), w.(pc := Idle))
  {
  }

  /** A reaper that owes a write pays it first; it is not for this container. */
  lemma {:induction false} ReaperPaysFirst(w: World, c: ContainerId, grace: int) returns (w': World)
    requires Inv(w) && w.pc.Idle? && w.lock.Some? && HasPid(w, c)
    ensures w' == Apply(w, ReaperWrite).(pc := StopRead(c, grace, Return))
    ensures Takes(w.(pc := StopRead(c, grace, Return)), ReaperWrite, w')
    ensures w'.lock.None? && HasPid(w', c)
  {
    w' := Apply(w, ReaperWrite).(pc := StopRead(c, grace, Return));
  }

  /** With a pid, the stop may give up at once, whether or not a reaper still
      owes a write. */
  lemma {:induction false} StopGivesUp(w: World, c: ContainerId, grace: int) returns (ws: seq<World>, es: seq<Event>)
    requires Inv(w) && w.pc.Idle? && HasPid(w, c)
    ensures IsStop(ws, es, c, grace) && ws[0] == w && IsRunning(ws[|es|], c)
  {
    var call, step := Begin(StopContainerCall(c, grace)), Step(NO_ANSWER);
    var w1 := w.(pc := StopRead(c, grace, Return));
    assert Takes(w, call, w1);
    if w.lock.None? {
      FreeStopGivesUp(w1, c, grace);
      ws, es := [w, w1, w1.(pc := StopWait(c, Return)), w1.(pc := Idle)], [call, step, step];
    } else {
      var w2 := ReaperPaysFirst(w, c, grace);
      FreeStopGivesUp(w2, c, grace);
      ws, es := [w, w1, w2, w2.(pc := StopWait(c, Return)), w2.(pc := Idle)], [call, ReaperWrite, step, step];
    }
  }

  /** Where a stop of a container without a pid stands. */
  predicate StopsSurely(w: World, c: ContainerId, grace: int) {
    || (w.pc == StopRead(c, grace, Return) && !HasPid(w, c))
    || (w.pc == StopMark(c, grace, Return) && !HasPid(w, c))
    || (w.pc.PersistStop? && w.pc.k.Return? && !IsRunning(w, c))
    || (w.pc.Idle? && !IsRunning(w, c))
  }

  lemma {:induction false} StopsSurelyStep(w: World, e: Event, c: ContainerId, grace: int)
    requires Enabled(w, e) && KontsSound(w.pc) && StopsSurely(w, c, grace)
    requires e.Step? || e.ReaperLock? || e.ReaperWrite?
    ensures StopsSurely(Apply(w, e), c, grace)
  {
  }

  lemma {:induction false} WithoutPidItStops(ws: seq<World>, es: seq<Event>, c: ContainerId, grace: int, i: nat)
    requires IsStop(ws, es, c, grace) && !HasPid(ws[0], c) && 0 < i < |ws|
    ensures StopsSurely(ws[i], c, grace)
  {
    assert Takes(ws[i - 1], es[i - 1], ws[i]);
    if i > 1 {
      WithoutPidItStops(ws, es, c, grace, i - 1);
      StopsSurelyStep(ws[i - 1], es[i - 1], c, grace);
    }
  }

  ghost predicate MayLeaveRunning(w: World, c: ContainerId, grace: int) {
    exists ws: seq<World>, es: seq<Event> :: IsStop(ws, es, c, grace) && ws[0] == w && IsRunning(ws[|es|], c)
  }

  /** A `stop_container` may return with the container still Running if and
      only if the cache had it Running with a pid when the call came: then its
      wait is bounded, and a process adopted by `open` has no reaper. */
  lemma {:induction false} StopMayLeaveRunning(w: World, c: ContainerId, grace: int)
    requires Inv(w) && w.pc.Idle?
    ensures MayLeaveRunning(w, c, grace) <==> HasPid(w, c)
  {
    if HasPid(w, c) {
      var ws, es := StopGivesUp(w, c, grace);
    } else {
      forall ws: seq<World>, es: seq<Event> | IsStop(ws, es, c, grace) && ws[0] == w
        ensures !IsRunning(ws[|es|], c)
      {
        WithoutPidItStops(ws, es, c, grace, |es|);
      }
    }
  }

  // ---------------------------------------------------------------------
  // What an exit says
  // ---------------------------------------------------------------------

  /** The exit that a reaper's turn puts on record. */
  predicate Reports(e: Event, r: ContainerRecord) {
    e.ReaperLock? && r.state == Exited && r.exitCode == e.code && r.reason == e.reason && r.finishedAt == e.now
  }

  /** The write a reaper owes is what it saw when it took the lock. */
  lemma {:induction false} LockHasTurn(ws: seq<World>, es: seq<Event>, i: nat) returns (j: nat)
    requires IsRun(ws, es) && i < |ws| && ws[i].lock.Some?
    ensures j < i && Reports(es[j], ws[i].lock.value.1) && es[j].cid == ws[i].lock.value.0 && es[j].cid in ws[j].reapers
    ensures forall k {:trigger es[k]} :: j < k < i ==> !es[k].ReaperWrite? && !es[k].Crash?
  {
    assert Takes(ws[i - 1], es[i - 1], ws[i]);
    if es[i - 1].ReaperLock? && ws[i - 1].lock.None? {
      j := i - 1;
    } else {
      assert ws[i - 1].lock == ws[i].lock;
      j := LockHasTurn(ws, es, i - 1);
    }
  }

  /** What the call in flight is about to write as an exit. */
  predicate ExitOk(pc: Pc) {
    && (pc.PersistSpawnFailed? ==> pc.rec.exitCode == -1 && pc.rec.reason == "spawn-failed")
    && (pc.PersistStop? ==> (pc.rec.exitCode == 143 || pc.rec.exitCode == 137) && pc.rec.reason == "stopped")
  }

  lemma {:induction false} SpawnExitOk(w: World, o: Oracle)
    requires CanStep(w, o) && KontsSound(w.pc) && Advance(w, o).pc.PersistSpawnFailed?
    ensures ExitOk(Advance(w, o).pc)
  {
  }

  lemma {:induction false} StopExitOk(w: World, o: Oracle)
    requires CanStep(w, o) && KontsSound(w.pc) && Advance(w, o).pc.PersistStop?
    ensures ExitOk(Advance(w, o).pc)
  {
  }

  lemma {:induction false} StepKeepsExitOk(w: World, o: Oracle)
    requires CanStep(w, o) && KontsSound(w.pc)
    ensures ExitOk(Advance(w, o).pc)
  {
    if Advance(w, o).pc.PersistSpawnFailed? { SpawnExitOk(w, o); }
    if Advance(w, o).pc.PersistStop? { StopExitOk(w, o); }
  }

  lemma {:induction false} ExitOkAlongRun(ws: seq<World>, es: seq<Event>, i: nat)
    requires IsRun(ws, es) && i < |ws|
    ensures ExitOk(ws[i].pc)
  {
    if i > 0 {
      ExitOkAlongRun(ws, es, i - 1);
      assert Takes(ws[i - 1], es[i - 1], ws[i]);
      if es[i - 1].Step? { StepKeepsExitOk(ws[i - 1], es[i - 1].o); }
    }
  }

  /** Whoever turned a record file terminal, what it says is what happened: the
      code, reason and time that the reaper's wait gave; a failed spawn; a stop
      without a process; or a process that `open` found lost. */
  lemma {:induction false} ExitTellsItsCause(ws: seq<World>, es: seq<Event>, i: nat, c: ContainerId)
    requires IsRun(ws, es) && i < |es| && TurnsTerminal(ws[i].disk, ws[i + 1].disk, c)
    ensures var r := ws[i + 1].disk.containers[c];
      || (es[i].ReaperWrite? && exists j {:trigger es[j]} :: 0 <= j < i && Reports(es[j], r) && es[j].cid == c)
      || (es[i].Step? && r.exitCode == -1 && r.reason == "spawn-failed")
      || (es[i].Step? && (r.exitCode == 143 || r.exitCode == 137) && r.reason == "stopped")
      || (es[i].OpenFile? && r == Lost(ws[i].disk.containers[c], es[i].now))
  {
    OnlyTheseWriteTerminal(ws, es, i, c);
    assert Takes(ws[i], es[i], ws[i + 1]);
    if es[i].ReaperWrite? {
      var j := LockHasTurn(ws, es, i);
      assert es[j].cid == c;
    } else if es[i].Step? {
      ExitOkAlongRun(ws, es, i);
    }
  }
}

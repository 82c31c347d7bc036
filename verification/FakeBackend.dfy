/** The backend itself: the cache maps, the record files, and the API methods
    that update them one atomic step at a time. Every method runs with reapers
    interleaving between its steps, and the ghost history of the object is
    proved to be a run of the lifecycle system, so each of its intermediate
    states, where a kill could strike, satisfies the invariant. */
module FakeBackendModule {
  import opened Options
  import opened Lifecycle
  import opened LifecycleInvariant
  import opened LifecycleSafety

  datatype Outcome = Done | NotFound | FailedPrecondition | Internal

  /** The containers of `b` are those of `a`, some Running ones having exited
      in between because their reaper saw the process end. */
  ghost predicate OnlyReaped(a: map<ContainerId, ContainerRecord>, b: map<ContainerId, ContainerRecord>, reapers: set<ContainerId>) {
    && a.Keys == b.Keys
    && forall c <- a :: OneReaped(a[c], b[c], c in reapers)
  }

  /** The exit of the process fills in these four fields and no others. */
  ghost predicate OneReaped(a: ContainerRecord, b: ContainerRecord, watched: bool) {
    || b == a
    || (watched && a.state == Running
        && b == a.(state := Exited, exitCode := b.exitCode, finishedAt := b.finishedAt, reason := b.reason))
  }

  lemma OnlyReapedTwice(a: map<ContainerId, ContainerRecord>, b: map<ContainerId, ContainerRecord>,
                        c: map<ContainerId, ContainerRecord>, early: set<ContainerId>, late: set<ContainerId>)
    requires OnlyReaped(a, b, early) && OnlyReaped(b, c, late) && late <= early
    ensures OnlyReaped(a, c, early)
  {
  }

  lemma OnlyReapedThenDrop(a: map<ContainerId, ContainerRecord>, b: map<ContainerId, ContainerRecord>,
                           c: map<ContainerId, ContainerRecord>, gone: set<ContainerId>,
                           early: set<ContainerId>, late: set<ContainerId>)
    requires OnlyReaped(a, b, early) && OnlyReaped(b - gone, c, late) && late <= early
    ensures OnlyReaped(a - gone, c, early)
  {
  }

  lemma OnlyReapedThenPut(a: map<ContainerId, ContainerRecord>, b: map<ContainerId, ContainerRecord>,
                          c: map<ContainerId, ContainerRecord>, cid: ContainerId, r: ContainerRecord,
                          early: set<ContainerId>, late: set<ContainerId>)
    requires OnlyReaped(a, b, early) && OnlyReaped(b[cid := r], c, late) && late <= early
    ensures OnlyReaped(a[cid := r], c, early)
  {
  }

  lemma OnlyReapedThenStart(a: map<ContainerId, ContainerRecord>, b: map<ContainerId, ContainerRecord>,
                            c: map<ContainerId, ContainerRecord>, cid: ContainerId,
                            setup: bool, started: int, o: Oracle, early: set<ContainerId>, late: set<ContainerId>)
    requires OnlyReaped(a, b, early) && late <= early
    requires OnlyReaped(AfterStart(b, cid, setup, started, o), c, late)
    ensures OnlyReaped(AfterStart(a, cid, setup, started, o), c, early)
    ensures StartOutcome(a, cid, setup, o) == StartOutcome(b, cid, setup, o)
  {
    if cid in b && b[cid].state == Created && setup {
      OnlyReapedThenPut(a, b, c, cid, AfterStart(b, cid, setup, started, o)[cid], early, late);
    } else {
      OnlyReapedTwice(a, b, c, early, late);
    }
  }

  lemma OnlyReapedThenStop(a: map<ContainerId, ContainerRecord>, b: map<ContainerId, ContainerRecord>,
                           c: map<ContainerId, ContainerRecord>, cid: ContainerId, grace: int, now: int,
                           early: set<ContainerId>, late: set<ContainerId>)
    requires OnlyReaped(a, b, early) && late <= early
    requires cid in a && cid in early && a[cid].state == Running ==> a[cid].pid > 0
    requires OnlyReaped(AfterStop(b, cid, grace, now), c, late)
    ensures OnlyReaped(AfterStop(a, cid, grace, now), c, early)
  {
  }

  lemma OnlyReapedStopDrop(a: map<ContainerId, ContainerRecord>, b: map<ContainerId, ContainerRecord>,
                           c: map<ContainerId, ContainerRecord>, cid: ContainerId, now: int,
                           early: set<ContainerId>, late: set<ContainerId>)
    requires OnlyReaped(AfterStop(a, cid, 0, now), b, early) && OnlyReaped(b - {cid}, c, late) && late <= early
    ensures OnlyReaped(a - {cid}, c, early)
  {
    OnlyReapedThenDrop(AfterStop(a, cid, 0, now), b, c, {cid}, early, late);
    assert AfterStop(a, cid, 0, now) - {cid} == a - {cid};
  }

  lemma DropOneMore(cs: map<ContainerId, ContainerRecord>, ids: seq<ContainerId>, i: nat)
    requires i < |ids|
    ensures cs - SetOf(ids[..i]) - {ids[i]} == cs - SetOf(ids[..i + 1])
    ensures ids[i..][0] == ids[i] && ids[i..][1..] == ids[i + 1..]
  {
  }

  lemma PutTwice(cs: map<ContainerId, ContainerRecord>, cid: ContainerId, r: ContainerRecord, r': ContainerRecord)
    ensures cs[cid := r][cid := r'] == cs[cid := r']
  {
  }

  /** The disk half way through `open`: all records but those in `files` are corrected. */
  function RecoverBut(d: Db, files: set<ContainerId>, alive: nat -> bool, at: ContainerId -> int): Db {
    d.(containers := map c | c in d.containers ::
      if c in files then d.containers[c] else Recover(d.containers[c], alive(d.containers[c].pid), at(c)))
  }

  lemma RecoverOneMore(d: Db, files: set<ContainerId>, cid: ContainerId, alive: nat -> bool, at: ContainerId -> int)
    requires cid in files && cid in d.containers
    ensures PutContainer(RecoverBut(d, files, alive, at), cid, Recover(d.containers[cid], alive(d.containers[cid].pid), at(cid)))
         == RecoverBut(d, files - {cid}, alive, at)
  {
  }

  /** What `stop_container` itself changes: a Running record without a pid has
      no reaper, so it is closed directly; any other exit is left to the reaper. */
  function AfterStop(cs: map<ContainerId, ContainerRecord>, cid: ContainerId, grace: int, now: int): map<ContainerId, ContainerRecord> {
    if cid in cs && cs[cid].state == Running && cs[cid].pid == 0 then
      cs[cid := cs[cid].(state := Exited, finishedAt := now, exitCode := if grace > 0 then 143 else 137, reason := "stopped")]
    else cs
  }

  function At(now: int): Oracle { Oracle(now, Option.None, true, "", []) }

  class FakeBackend {
    var cache: Db
    var disk: Db
    var reapers: map<ContainerId, nat>
    var lock: Option<(ContainerId, ContainerRecord)>
    ghost var ever: set<ContainerId>
    ghost var pc: Pc
    ghost var worlds: seq<World>
    ghost var events: seq<Event>

    ghost function Now(): World
      reads this
    {
      World(cache, disk, ever, reapers, lock, pc)
    }

    ghost predicate Valid()
      reads this
    {
      && IsRun(worlds, events)
      && worlds[|events|] == Now()
      && KontsSound(pc)
    }

    /** The history only grows. */
    twostate predicate Extends()
      reads this
    {
      old(worlds) <= worlds && old(events) <= events
    }

    constructor ()
      ensures Valid() && pc.Down? && cache == EMPTY && disk == EMPTY && ever == {}
    {
      cache, disk, reapers := EMPTY, EMPTY, map[];
      lock, ever, pc := None, {}, Down;
      worlds, events := [World(EMPTY, EMPTY, {}, map[], None, Down)], [];
    }

    /** At a point where the call in flight owes nothing, the cache is the disk
        up to the one record a reaper is writing. */
    lemma Agreement()
      requires Valid() && Settled(pc)
      ensures cache == Pay(disk, lock) && cache.sandboxes == disk.sandboxes
      ensures lock.Some? ==> lock.value.0 in cache.containers
      ensures cache.containers.Keys == disk.containers.Keys
      ensures forall c <- cache.containers :: cache.containers[c].sandbox in cache.sandboxes
    {
      InvAlongRun(worlds, events, |events|);
      var w := Now();
      assert Inv(w) && InSync(w);
    }

    /** Append one step of the call in flight to the history. */
    ghost method RecordStep(o: Oracle)
      requires IsRun(worlds, events) && KontsSound(pc) && KontsSound(worlds[|events|].pc)
      requires CanStep(worlds[|events|], o) && Now() == Advance(worlds[|events|], o)
      modifies this`worlds, this`events
      ensures Valid()
      ensures worlds == old(worlds) + [Now()] && events == old(events) + [Step(o)]
    {
      Record(Step(o));
    }

    lemma SandboxesAgree()
      requires Valid() && Settled(pc)
      ensures cache.sandboxes == disk.sandboxes
    {
      Agreement();
    }

    lemma KeysAgree()
      requires Valid() && Settled(pc)
      ensures cache.containers.Keys == disk.containers.Keys
    {
      Agreement();
    }

    /** A container without a recorded pid has no reaper. */
    lemma WatchedHavePid()
      requires Valid()
      ensures forall c <- cache.containers :: c in reapers ==> cache.containers[c].pid > 0
    {
      InvAlongRun(worlds, events, |events|);
    }

    /** While a container is being started it has no reaper yet. */
    lemma NotYetWatched()
      requires Valid() && (pc.StartMark? || pc.SpawnFailed? || pc.RecordPid?)
      ensures pc.cid in cache.containers ==> pc.cid !in reapers
    {
      InvAlongRun(worlds, events, |events|);
    }

    lemma NothingWhileDown()
      requires Valid() && pc.Down?
      ensures cache == EMPTY && reapers == map[] && lock.None?
    {
      InvAlongRun(worlds, events, |events|);
    }

    /** Append the event that has just been carried out to the history. */
    ghost method Record(e: Event)
      requires IsRun(worlds, events) && Takes(worlds[|events|], e, Now()) && KontsSound(pc)
      modifies this`worlds, this`events
      ensures Valid()
      ensures worlds == old(worlds) + [Now()] && events == old(events) + [e]
    {
      worlds, events := worlds + [Now()], events + [e];
    }

    // -------------------------------------------------------------------
    // Other threads
    // -------------------------------------------------------------------

    /** What reapers may have done since some earlier state. */
    twostate predicate OnlyReapersRan()
      reads this
    {
      && Extends()
      && pc == old(pc) && ever == old(ever)
      && cache.sandboxes == old(cache.sandboxes) && disk.sandboxes == old(disk.sandboxes)
      && old(disk.containers.Keys) <= disk.containers.Keys
      && reapers.Keys <= old(reapers.Keys)
      && OnlyReaped(old(cache.containers), cache.containers, old(reapers.Keys))
    }

    /** A reaper whose process has ended takes the lock. */
    method ReaperTurn(cid: ContainerId, code: int, reason: string, now: int)
      requires Valid() && cid in reapers && lock.None?
      modifies this
      ensures Valid() && OnlyReapersRan() && disk == old(disk)
      ensures if cid in old(cache.containers) && old(cache.containers)[cid].state == Running
        then var r := old(cache.containers)[cid].(state := Exited, exitCode := code, finishedAt := now, reason := reason);
          cache.containers == old(cache.containers)[cid := r] && lock == Some((cid, r)) && reapers == old(reapers)
        else cache == old(cache) && lock == None && reapers == old(reapers) - {cid}
    {
      if cid in cache.containers && cache.containers[cid].state == Running {
        var r := Reaped(cache.containers[cid], code, reason, now);
        cache := PutContainer(cache, cid, r);
        lock := Some((cid, r));
      } else {
        reapers := reapers - {cid};
      }
      Record(ReaperLock(cid, code, reason, now));
    }

    /** The reaper that holds the lock writes its record and lets go. */
    method ReaperFinish()
      requires Valid()
      modifies this
      ensures Valid() && OnlyReapersRan() && lock.None? && cache == old(cache)
      ensures match old(lock)
        case None => disk == old(disk) && reapers == old(reapers)
        case Some((cid, r)) => disk.containers == old(disk.containers)[cid := r] && reapers == old(reapers) - {cid}
    {
      if lock.Some? {
        var (cid, r) := lock.value;
        disk := PutContainer(disk, cid, r);
        lock := None;
        reapers := reapers - {cid};
        Record(ReaperWrite);
      }
    }

    /** Any number of reapers run, in any order; `free` waits for the cache lock. */
    method Interleave(free: bool)
      requires Valid()
      modifies this
      ensures Valid() && OnlyReapersRan()
      ensures free ==> lock.None?
    {
      var n: nat := *;
      while n > 0
        invariant Valid() && OnlyReapersRan()
      {
        n := n - 1;
        ReaperFinish();
        if reapers != map[] {
          var cid :| cid in reapers;
          var code: int, reason: string, now: int := *, *, *;
          ReaperTurn(cid, code, reason, now);
        }
      }
      if free { ReaperFinish(); }
    }

    // -------------------------------------------------------------------
    // open
    // -------------------------------------------------------------------

    method OpenBegin() returns (files: set<ContainerId>)
      requires Valid() && pc.Down?
      modifies this
      ensures Valid() && Extends() && lock.None? && reapers == map[] && disk == old(disk)
      ensures files == disk.containers.Keys && pc == Opening(files)
    {
      NothingWhileDown();
      cache := disk.(containers := map[]);
      files := disk.containers.Keys;
      pc := Opening(files);
      Record(OpenStart);
    }

    /** Read one record file; rewrite it if its process is lost. */
    method OpenOne(ghost files: set<ContainerId>, cid: ContainerId, alive: bool, now: int)
      requires Valid() && pc == Opening(files) && cid in files && cid in disk.containers
      modifies this`cache, this`disk, this`pc, this`worlds, this`events
      ensures Valid() && Extends() && pc == Opening(files - {cid})
      ensures disk == PutContainer(old(disk), cid, Recover(old(disk).containers[cid], alive, now))
    {
      var r := Recover(disk.containers[cid], alive, now);
      cache, disk := PutContainer(cache, cid, r), PutContainer(disk, cid, r);
      pc := Opening(files - {cid});
      Record(OpenFile(cid, alive, now));
    }

    ghost method OpenEnd()
      requires Valid() && pc == Opening({}) && lock.None?
      modifies this`pc, this`worlds, this`events
      ensures Valid() && Extends() && pc.Idle? && cache == disk
    {
      pc := Idle;
      Record(OpenDone);
      Agreement();
    }

    /** Rebuild the cache from the files, correcting records of lost processes. */
    method Open(alive: nat -> bool, at: ContainerId -> int)
      requires Valid() && pc.Down?
      modifies this
      ensures Valid() && Extends() && pc.Idle? && lock.None? && reapers == map[]
      ensures disk == RecoverAll(old(disk), alive, at)
      ensures cache == disk
    {
      var d := disk;
      var files := OpenBegin();
      while files != {}
        invariant Valid() && Extends() && pc == Opening(files) && files <= d.containers.Keys
        invariant lock.None? && reapers == map[] && disk == RecoverBut(d, files, alive, at)
        decreases files
      {
        var cid :| cid in files;
        OpenOne(files, cid, alive(disk.containers[cid].pid), at(cid));
        RecoverOneMore(d, files, cid, alive, at);
        files := files - {cid};
      }
      OpenEnd();
    }

    /** A kill: memory is gone, the files stay. */
    method Kill()
      requires Valid() && !pc.Down?
      modifies this
      ensures Valid() && Extends() && pc.Down? && disk == old(disk) && cache == EMPTY && reapers == map[]
    {
      cache, reapers, lock := EMPTY, map[], None;
      pc := Down;
      Record(Crash);
    }

    // -------------------------------------------------------------------
    // Sandboxes
    // -------------------------------------------------------------------

    ghost method Enter(call: Call)
      requires Valid() && pc.Idle? && Fresh(Now(), call)
      modifies this`pc, this`worlds, this`events
      ensures Valid() && Extends() && pc == Entry(call)
    {
      pc := Entry(call);
      Record(Begin(call));
    }

    /** A step that only moves the control point. */
    ghost method Goto(next: Pc, o: Oracle)
      requires Valid() && CanStep(Now(), o) && KontsSound(next)
      requires Advance(Now(), o) == Now().(pc := next)
      modifies this`pc, this`worlds, this`events
      ensures Valid() && Extends() && pc == next
    {
      pc := next;
      RecordStep(o);
    }

    /** Write a sandbox record file. */
    method WriteSandbox(sid: SandboxId, rec: SandboxRecord)
      requires Valid() && (pc.PersistSandbox? || pc.PersistStopped?) && pc.sid == sid && pc.srec == rec
      modifies this`disk, this`pc, this`worlds, this`events
      ensures Valid() && Extends() && pc == AfterWrite(old(pc)) && disk == PutSandbox(old(disk), sid, rec)
    {
      disk := PutSandbox(disk, sid, rec);
      pc := AfterWrite(pc);
      RecordStep(At(0));
    }

    /** Change a sandbox record in the cache. */
    method CacheSandbox(sid: SandboxId, rec: SandboxRecord, ghost next: Pc)
      requires Valid() && CanStep(Now(), At(0)) && KontsSound(next)
      requires Advance(Now(), At(0)) == Now().(cache := PutSandbox(cache, sid, rec), pc := next)
      modifies this`cache, this`pc, this`worlds, this`events
      ensures Valid() && Extends() && pc == next && cache == PutSandbox(old(cache), sid, rec)
    {
      cache := PutSandbox(cache, sid, rec);
      pc := next;
      RecordStep(At(0));
    }

    method RunSandbox(sid: SandboxId, config: string, now: int)
      requires Valid() && pc.Idle? && sid !in disk.sandboxes
      modifies this
      ensures Valid() && Extends() && pc.Idle?
      ensures cache.sandboxes == disk.sandboxes == old(cache.sandboxes)[sid := SandboxRecord(config, Ready, now)]
      ensures OnlyReaped(old(cache.containers), cache.containers, old(reapers.Keys))
    {
      var rec := SandboxRecord(config, Ready, now);
      SandboxesAgree();
      Enter(RunSandboxCall(sid, config, now));
      Interleave(false);
      ghost var cs, live := cache.containers, reapers.Keys;
      WriteSandbox(sid, rec);
      Interleave(true);
      OnlyReapedTwice(old(cache.containers), cs, cache.containers, old(reapers.Keys), live);
      CacheSandbox(sid, rec, Idle);
    }

    method StopSandbox(sid: SandboxId)
      requires Valid() && pc.Idle?
      modifies this
      ensures Valid() && Extends() && pc.Idle?
      ensures cache.sandboxes == disk.sandboxes == NotReadyIn(old(cache.sandboxes), sid)
      ensures OnlyReaped(old(cache.containers), cache.containers, old(reapers.Keys))
    {
      Enter(StopSandboxCall(sid));
      StopSandboxThen(sid, Return);
    }

    /** The body of `stop_sandbox`, returning to `k`. */
    method StopSandboxThen(sid: SandboxId, ghost k: Kont)
      requires Valid() && pc == Pc.StopSandbox(sid, k)
      modifies this
      ensures Valid() && Extends() && pc == Resume(k) && ever == old(ever)
      ensures reapers.Keys <= old(reapers.Keys)
      ensures cache.sandboxes == disk.sandboxes == NotReadyIn(old(cache.sandboxes), sid)
      ensures OnlyReaped(old(cache.containers), cache.containers, old(reapers.Keys))
    {
      Interleave(true);
      if sid !in cache.sandboxes || cache.sandboxes[sid].state == NotReady {
        Goto(Resume(k), At(0));
        Agreement();
      } else {
        ghost var cs, live := cache.containers, reapers.Keys;
        PersistNotReady(sid, k);
        OnlyReapedTwice(old(cache.containers), cs, cache.containers, old(reapers.Keys), live);
      }
    }

    method PersistNotReady(sid: SandboxId, ghost k: Kont)
      requires Valid() && pc == Pc.StopSandbox(sid, k) && lock.None?
      requires sid in cache.sandboxes && cache.sandboxes[sid].state == Ready
      modifies this
      ensures Valid() && Extends() && pc == Resume(k) && ever == old(ever)
      ensures reapers.Keys <= old(reapers.Keys)
      ensures cache.sandboxes == disk.sandboxes == NotReadyIn(old(cache.sandboxes), sid)
      ensures OnlyReaped(old(cache.containers), cache.containers, old(reapers.Keys))
    {
      var rec := cache.sandboxes[sid].(state := NotReady);
      CacheSandbox(sid, rec, PersistStopped(sid, rec, k));
      Interleave(false);
      WriteSandbox(sid, rec);
      Agreement();
    }

    // -------------------------------------------------------------------
    // Containers
    // -------------------------------------------------------------------

    /** Write the container record file the call owes. */
    method WriteContainer(cid: ContainerId, rec: ContainerRecord)
      requires Valid() && Owed(pc) == Some((cid, rec))
      modifies this`disk, this`pc, this`worlds, this`events
      ensures Valid() && Extends() && pc == AfterWrite(old(pc)) && disk == PutContainer(old(disk), cid, rec)
    {
      disk := PutContainer(disk, cid, rec);
      pc := AfterWrite(pc);
      RecordStep(At(0));
    }

    /** Change a container record in the cache. */
    method CacheContainer(cid: ContainerId, rec: ContainerRecord, ghost next: Pc, ghost o: Oracle)
      requires Valid() && CanStep(Now(), o) && KontsSound(next)
      requires Advance(Now(), o) == Now().(cache := PutContainer(cache, cid, rec), pc := next)
      modifies this`cache, this`pc, this`worlds, this`events
      ensures Valid() && Extends() && pc == next && cache == PutContainer(old(cache), cid, rec)
    {
      cache := PutContainer(cache, cid, rec);
      pc := next;
      RecordStep(o);
    }

    /** Change a record in the cache under the lock, then write its file. */
    method ChangeContainer(cid: ContainerId, rec: ContainerRecord, ghost next: Pc, ghost o: Oracle)
      requires Valid() && CanStep(Now(), o) && KontsSound(next) && Owed(next) == Some((cid, rec))
      requires Advance(Now(), o) == Now().(cache := PutContainer(cache, cid, rec), pc := next)
      modifies this
      ensures Valid() && Extends() && pc == AfterWrite(next) && ever == old(ever)
      ensures cache.sandboxes == old(cache.sandboxes) && disk.sandboxes == old(disk.sandboxes)
      ensures reapers.Keys <= old(reapers.Keys)
      ensures OnlyReaped(old(cache.containers)[cid := rec], cache.containers, old(reapers.Keys))
    {
      CacheContainer(cid, rec, next, o);
      Interleave(false);
      WriteContainer(cid, rec);
    }

    /** Write the file of a container that never had one. */
    method WriteNewContainer(cid: ContainerId, rec: ContainerRecord)
      requires Valid() && pc == PersistContainer(cid, rec)
      modifies this`disk, this`ever, this`pc, this`worlds, this`events
      ensures Valid() && Extends() && pc == Pc.CacheContainer(cid, rec)
      ensures disk == PutContainer(old(disk), cid, rec) && ever == old(ever) + {cid}
    {
      disk, ever := PutContainer(disk, cid, rec), ever + {cid};
      pc := AfterWrite(pc);
      RecordStep(At(0));
    }

    method CreateContainer(sid: SandboxId, cid: ContainerId, config: string, now: int) returns (r: Outcome)
      requires Valid() && pc.Idle? && cid !in ever
      modifies this
      ensures Valid() && Extends() && pc.Idle?
      ensures cache.sandboxes == disk.sandboxes == old(cache.sandboxes)
      ensures r == NotFound <==> sid !in old(cache.sandboxes)
      ensures r == FailedPrecondition <==> sid in old(cache.sandboxes) && old(cache.sandboxes)[sid].state == NotReady
      ensures r == Done <==> sid in old(cache.sandboxes) && old(cache.sandboxes)[sid].state == Ready
      ensures r == Done ==> cid in disk.containers
      ensures OnlyReaped(if r == Done then old(cache.containers)[cid := JustCreated(sid, config, now)] else old(cache.containers),
                         cache.containers, old(reapers.Keys))
    {
      SandboxesAgree();
      Enter(CreateContainerCall(sid, cid, config, now));
      Interleave(true);
      if sid !in cache.sandboxes {
        r := NotFound;
        Goto(Idle, At(0));
      } else if cache.sandboxes[sid].state != Ready {
        r := FailedPrecondition;
        Goto(Idle, At(0));
      } else {
        r := Done;
        Goto(PersistContainer(cid, NewContainer(sid, config, now)), At(0));
        ghost var cs, live := cache.containers, reapers.Keys;
        PublishContainer(cid, NewContainer(sid, config, now));
        OnlyReapedThenPut(old(cache.containers), cs, cache.containers, cid, NewContainer(sid, config, now), old(reapers.Keys), live);
      }
    }

    method PublishContainer(cid: ContainerId, rec: ContainerRecord)
      requires Valid() && pc == PersistContainer(cid, rec)
      modifies this
      ensures Valid() && Extends() && pc.Idle?
      ensures cache.sandboxes == old(cache.sandboxes) && disk.sandboxes == old(disk.sandboxes) && cid in disk.containers
      ensures OnlyReaped(old(cache.containers)[cid := rec], cache.containers, old(reapers.Keys))
    {
      Interleave(false);
      ghost var cs, live := cache.containers, reapers.Keys;
      WriteNewContainer(cid, rec);
      Interleave(true);
      OnlyReapedTwice(old(cache.containers), cs, cache.containers, old(reapers.Keys), live);
      CacheContainer(cid, rec, Idle, At(0));
    }

    /** Start a container. `o.pid` is the spawner's answer, `o.why` its error
        text; `setup` and `o.fdsOk` say whether descriptors could be set up
        before and after the spawn. */
    method StartContainer(cid: ContainerId, setup: bool, started: int, o: Oracle) returns (r: Outcome)
      requires Valid() && pc.Idle? && (o.pid.Some? ==> o.pid.value > 0)
      modifies this
      ensures Valid() && Extends() && pc.Idle?
      ensures cache.sandboxes == disk.sandboxes == old(cache.sandboxes)
      ensures r == NotFound <==> cid !in old(cache.containers)
      ensures r == FailedPrecondition <==> cid in old(cache.containers) && old(cache.containers)[cid].state != Created
      ensures r == StartOutcome(old(cache.containers), cid, setup, o)
      ensures OnlyReaped(AfterStart(old(cache.containers), cid, setup, started, o), cache.containers, old(reapers.Keys))
      ensures r == Done ==> cid in reapers && reapers[cid] == o.pid.value
    {
      SandboxesAgree();
      Enter(StartContainerCall(cid));
      Interleave(true);
      ghost var cs, live := cache.containers, reapers.Keys;
      r := StartLocked(cid, setup, started, o);
      OnlyReapedThenStart(old(cache.containers), cs, cache.containers, cid, setup, started, o, old(reapers.Keys), live);
    }

    method StartLocked(cid: ContainerId, setup: bool, started: int, o: Oracle) returns (r: Outcome)
      requires Valid() && pc == StartRead(cid) && lock.None? && (o.pid.Some? ==> o.pid.value > 0)
      modifies this
      ensures Valid() && Extends() && pc.Idle?
      ensures cache.sandboxes == old(cache.sandboxes) && disk.sandboxes == old(disk.sandboxes)
      ensures r == StartOutcome(old(cache.containers), cid, setup, o)
      ensures OnlyReaped(AfterStart(old(cache.containers), cid, setup, started, o), cache.containers, old(reapers.Keys))
      ensures r == Done ==> cid in reapers && reapers[cid] == o.pid.value
    {
      if cid !in cache.containers || cache.containers[cid].state != Created {
        r := if cid !in cache.containers then NotFound else FailedPrecondition;
        Goto(Idle, At(0));
      } else {
        Goto(StartMark(cid), At(0));
        r := LaunchContainer(cid, setup, started, o);
      }
    }

    method LaunchContainer(cid: ContainerId, setup: bool, started: int, o: Oracle) returns (r: Outcome)
      requires Valid() && lock.None? && pc == StartMark(cid) && (o.pid.Some? ==> o.pid.value > 0)
      requires cid in cache.containers && cache.containers[cid].state == Created
      modifies this
      ensures Valid() && Extends() && pc.Idle?
      ensures cache.sandboxes == old(cache.sandboxes) && disk.sandboxes == old(disk.sandboxes)
      ensures r == StartOutcome(old(cache.containers), cid, setup, o)
      ensures OnlyReaped(AfterStart(old(cache.containers), cid, setup, started, o), cache.containers, old(reapers.Keys))
      ensures r == Done ==> cid in reapers && reapers[cid] == o.pid.value
    {
      if !setup {
        Goto(Idle, At(0).(fdsOk := false));
        return Internal;
      }
      NotYetWatched();
      var rec := Starting(cache.containers[cid], started);
      ChangeContainer(cid, rec, PersistIntent(cid, rec), At(started));
      ghost var mid, live := cache.containers, reapers.Keys;
      r := SpawnContainer(cid, o);
      OnlyReapedThenPut(old(cache.containers)[cid := rec], mid, cache.containers, cid, AfterSpawn(rec, o), old(reapers.Keys), live);
      PutTwice(old(cache.containers), cid, rec, AfterSpawn(rec, o));
    }

    method SpawnContainer(cid: ContainerId, o: Oracle) returns (r: Outcome)
      requires Valid() && pc == Spawn(cid) && (o.pid.Some? ==> o.pid.value > 0)
      requires cid in cache.containers
      modifies this
      ensures Valid() && Extends() && pc.Idle?
      ensures cache.sandboxes == old(cache.sandboxes) && disk.sandboxes == old(disk.sandboxes)
      ensures r == if o.pid.Some? && o.fdsOk then Done else Internal
      ensures OnlyReaped(old(cache.containers)[cid := AfterSpawn(old(cache.containers[cid]), o)], cache.containers, old(reapers.Keys))
      ensures r == Done ==> cid in reapers && reapers[cid] == o.pid.value
    {
      if o.pid.None? {
        Goto(SpawnFailed(cid, o.why), o);
        RecordSpawnFailure(cid, o);
        r := Internal;
      } else if !o.fdsOk {
        Goto(Idle, o);
        r := Internal;
      } else {
        Goto(Pc.RecordPid(cid, o.pid.value), o);
        RecordPid(cid, o.pid.value);
        LaunchReaper(cid, o.pid.value);
        r := Done;
      }
    }

    method RecordSpawnFailure(cid: ContainerId, o: Oracle)
      requires Valid() && pc == SpawnFailed(cid, o.why) && o.pid.None? && cid in cache.containers
      modifies this
      ensures Valid() && Extends() && pc.Idle?
      ensures cache.sandboxes == old(cache.sandboxes) && disk.sandboxes == old(disk.sandboxes)
      ensures OnlyReaped(old(cache.containers)[cid := SpawnFailure(old(cache.containers[cid]), o.why, o.now)],
                         cache.containers, old(reapers.Keys))
    {
      NotYetWatched();
      Interleave(true);
      ghost var cs, live := cache.containers, reapers.Keys;
      var rec := SpawnFailure(cache.containers[cid], o.why, o.now);
      ChangeContainer(cid, rec, PersistSpawnFailed(cid, rec), o);
      OnlyReapedThenPut(old(cache.containers), cs, cache.containers, cid, rec, old(reapers.Keys), live);
    }

    method RecordPid(cid: ContainerId, pid: nat)
      requires Valid() && pc == Pc.RecordPid(cid, pid) && cid in cache.containers
      modifies this
      ensures Valid() && Extends() && pc == SpawnReaper(cid, pid) && reapers.Keys <= old(reapers.Keys)
      ensures cache.sandboxes == old(cache.sandboxes) && disk.sandboxes == old(disk.sandboxes)
      ensures OnlyReaped(old(cache.containers)[cid := WithPid(old(cache.containers[cid]), pid)],
                         cache.containers, old(reapers.Keys))
    {
      NotYetWatched();
      Interleave(true);
      ghost var cs, live := cache.containers, reapers.Keys;
      var rec := WithPid(cache.containers[cid], pid);
      ChangeContainer(cid, rec, PersistPid(cid, rec, pid), At(0));
      OnlyReapedThenPut(old(cache.containers), cs, cache.containers, cid, rec, old(reapers.Keys), live);
    }

    method LaunchReaper(cid: ContainerId, pid: nat)
      requires Valid() && pc == SpawnReaper(cid, pid)
      modifies this`reapers, this`pc, this`worlds, this`events
      ensures Valid() && Extends() && pc.Idle? && reapers == old(reapers)[cid := pid]
    {
      reapers := reapers[cid := pid];
      pc := Idle;
      RecordStep(At(0));
    }

    /** Poll until the container is no longer Running, or give up. */
    method WaitUntilExited(cid: ContainerId, polls: nat) returns (landed: bool)
      requires Valid()
      modifies this
      ensures Valid() && OnlyReapersRan() && lock.None?
      ensures landed <==> cid !in cache.containers || cache.containers[cid].state != Running
    {
      Interleave(true);
      var left := polls;
      while left > 0 && cid in cache.containers && cache.containers[cid].state == Running
        invariant Valid() && OnlyReapersRan() && lock.None?
        decreases left
      {
        Interleave(true);
        left := left - 1;
      }
      landed := cid !in cache.containers || cache.containers[cid].state != Running;
    }

    /** Stop a container; `polls` bounds the wait for its reaper. */
    method StopContainer(cid: ContainerId, grace: int, polls: nat, now: int) returns (landed: bool)
      requires Valid() && pc.Idle?
      modifies this
      ensures Valid() && Extends() && pc.Idle?
      ensures cache.sandboxes == disk.sandboxes == old(cache.sandboxes)
      ensures OnlyReaped(AfterStop(old(cache.containers), cid, grace, now), cache.containers, old(reapers.Keys))
      ensures landed <==> cid !in cache.containers || cache.containers[cid].state != Running
      ensures !landed ==> cache.containers[cid].pid > 0
    {
      SandboxesAgree();
      Enter(StopContainerCall(cid, grace));
      landed := StopContainerThen(cid, grace, polls, now, Return);
    }

    /** The body of `stop_container`, returning to `k`. */
    method StopContainerThen(cid: ContainerId, grace: int, polls: nat, now: int, ghost k: Kont) returns (landed: bool)
      requires Valid() && pc == StopRead(cid, grace, k)
      modifies this
      ensures Valid() && Extends() && pc == Resume(k) && ever == old(ever) && reapers.Keys <= old(reapers.Keys)
      ensures cache.sandboxes == old(cache.sandboxes) && disk.sandboxes == old(disk.sandboxes)
      ensures OnlyReaped(AfterStop(old(cache.containers), cid, grace, now), cache.containers, old(reapers.Keys))
      ensures landed <==> cid !in cache.containers || cache.containers[cid].state != Running
      ensures !landed ==> cache.containers[cid].pid > 0
    {
      WatchedHavePid();
      Interleave(true);
      ghost var cs, live := cache.containers, reapers.Keys;
      landed := StopLocked(cid, grace, polls, now, k);
      OnlyReapedThenStop(old(cache.containers), cs, cache.containers, cid, grace, now, old(reapers.Keys), live);
    }

    method StopLocked(cid: ContainerId, grace: int, polls: nat, now: int, ghost k: Kont) returns (landed: bool)
      requires Valid() && pc == StopRead(cid, grace, k) && lock.None?
      modifies this
      ensures Valid() && Extends() && pc == Resume(k) && ever == old(ever) && reapers.Keys <= old(reapers.Keys)
      ensures cache.sandboxes == old(cache.sandboxes) && disk.sandboxes == old(disk.sandboxes)
      ensures OnlyReaped(AfterStop(old(cache.containers), cid, grace, now), cache.containers, old(reapers.Keys))
      ensures landed <==> cid !in cache.containers || cache.containers[cid].state != Running
      ensures !landed ==> cache.containers[cid].pid > 0
    {
      if cid !in cache.containers || cache.containers[cid].state != Running {
        Goto(Resume(k), At(0));
        landed := true;
      } else if cache.containers[cid].pid > 0 {
        landed := AwaitReaper(cid, grace, polls, k);
      } else {
        CloseWithoutReaper(cid, grace, now, k);
        landed := true;
      }
    }

    /** With a pid recorded, only signal and wait: the reaper writes the exit. */
    method AwaitReaper(cid: ContainerId, ghost grace: int, polls: nat, ghost k: Kont) returns (landed: bool)
      requires Valid() && pc == StopRead(cid, grace, k) && lock.None?
      requires cid in cache.containers && cache.containers[cid].state == Running && cache.containers[cid].pid > 0
      modifies this
      ensures Valid() && Extends() && pc == Resume(k) && ever == old(ever) && reapers.Keys <= old(reapers.Keys)
      ensures cache.sandboxes == old(cache.sandboxes) && disk.sandboxes == old(disk.sandboxes)
      ensures OnlyReaped(old(cache.containers), cache.containers, old(reapers.Keys))
      ensures landed <==> cid !in cache.containers || cache.containers[cid].state != Running
    {
      StartWaiting(cid, grace, k);
      landed := WaitAndReturn(cid, polls, k);
    }

    ghost method StartWaiting(cid: ContainerId, grace: int, k: Kont)
      requires Valid() && pc == StopRead(cid, grace, k) && lock.None?
      requires cid in cache.containers && cache.containers[cid].state == Running && cache.containers[cid].pid > 0
      modifies this`pc, this`worlds, this`events
      ensures Valid() && Extends() && pc == StopWait(cid, k)
    {
      Goto(StopWait(cid, k), At(0));
    }

    method WaitAndReturn(cid: ContainerId, polls: nat, ghost k: Kont) returns (landed: bool)
      requires Valid() && pc == StopWait(cid, k)
      modifies this
      ensures Valid() && Extends() && pc == Resume(k) && ever == old(ever) && reapers.Keys <= old(reapers.Keys)
      ensures cache.sandboxes == old(cache.sandboxes) && disk.sandboxes == old(disk.sandboxes)
      ensures OnlyReaped(old(cache.containers), cache.containers, old(reapers.Keys))
      ensures landed <==> cid !in cache.containers || cache.containers[cid].state != Running
    {
      landed := WaitUntilExited(cid, polls);
      Goto(Resume(k), At(0));
    }

    /** Without a pid there is no reaper: write the exit here. */
    method CloseWithoutReaper(cid: ContainerId, grace: int, now: int, ghost k: Kont)
      requires Valid() && pc == StopRead(cid, grace, k) && lock.None?
      requires cid in cache.containers && cache.containers[cid].state == Running && cache.containers[cid].pid == 0
      modifies this
      ensures Valid() && Extends() && pc == Resume(k) && ever == old(ever) && reapers.Keys <= old(reapers.Keys)
      ensures cache.sandboxes == old(cache.sandboxes) && disk.sandboxes == old(disk.sandboxes)
      ensures OnlyReaped(AfterStop(old(cache.containers), cid, grace, now), cache.containers, old(reapers.Keys))
      ensures cid in cache.containers && cache.containers[cid].state == Exited
    {
      Goto(StopMark(cid, grace, k), At(0));
      CloseMarked(cid, grace, now, k);
    }

    method CloseMarked(cid: ContainerId, grace: int, now: int, ghost k: Kont)
      requires Valid() && pc == StopMark(cid, grace, k)
      requires cid in cache.containers && cache.containers[cid].state == Running && cache.containers[cid].pid == 0
      modifies this
      ensures Valid() && Extends() && pc == Resume(k) && ever == old(ever) && reapers.Keys <= old(reapers.Keys)
      ensures cache.sandboxes == old(cache.sandboxes) && disk.sandboxes == old(disk.sandboxes)
      ensures OnlyReaped(AfterStop(old(cache.containers), cid, grace, now), cache.containers, old(reapers.Keys))
      ensures cid in cache.containers && cache.containers[cid].state == Exited
    {
      WatchedHavePid();
      Interleave(true);
      ghost var cs, live := cache.containers, reapers.Keys;
      var rec := Stopped(cache.containers[cid], grace, now);
      ChangeContainer(cid, rec, PersistStop(cid, rec, k), At(now));
      OnlyReapedThenPut(old(cache.containers), cs, cache.containers, cid, rec, old(reapers.Keys), live);
    }

    /** Remove a container, stopping it first if it is Running. */
    method RemoveContainer(cid: ContainerId, polls: nat, now: int)
      requires Valid() && pc.Idle?
      modifies this
      ensures Valid() && Extends() && pc.Idle?
      ensures cache.sandboxes == disk.sandboxes == old(cache.sandboxes)
      ensures cid !in cache.containers && cid !in disk.containers
      ensures OnlyReaped(old(cache.containers) - {cid}, cache.containers, old(reapers.Keys))
    {
      SandboxesAgree();
      Enter(RemoveContainerCall(cid));
      RemoveContainerThen(cid, polls, now, Return);
    }

    /** The body of `remove_container`, returning to `k`. */
    method RemoveContainerThen(cid: ContainerId, polls: nat, now: int, ghost k: Kont)
      requires Valid() && pc == RemoveCheck(cid, k)
      modifies this
      ensures Valid() && Extends() && pc == Resume(k) && ever == old(ever) && reapers.Keys <= old(reapers.Keys)
      ensures cache.sandboxes == old(cache.sandboxes) && disk.sandboxes == old(disk.sandboxes)
      ensures cid !in cache.containers && cid !in disk.containers
      ensures OnlyReaped(old(cache.containers) - {cid}, cache.containers, old(reapers.Keys))
    {
      Interleave(true);
      ghost var cs, live := cache.containers, reapers.Keys;
      RemoveLocked(cid, polls, now, k);
      OnlyReapedThenDrop(old(cache.containers), cs, cache.containers, {cid}, old(reapers.Keys), live);
    }

    method RemoveLocked(cid: ContainerId, polls: nat, now: int, ghost k: Kont)
      requires Valid() && pc == RemoveCheck(cid, k) && lock.None?
      modifies this
      ensures Valid() && Extends() && pc == Resume(k) && ever == old(ever) && reapers.Keys <= old(reapers.Keys)
      ensures cache.sandboxes == old(cache.sandboxes) && disk.sandboxes == old(disk.sandboxes)
      ensures cid !in cache.containers && cid !in disk.containers
      ensures OnlyReaped(old(cache.containers) - {cid}, cache.containers, old(reapers.Keys))
    {
      if cid !in cache.containers {
        AlreadyGone(cid, k);
        assert cache.containers - {cid} == cache.containers;
      } else if cache.containers[cid].state != Running {
        EvictIdle(cid, k);
      } else {
        Goto(StopRead(cid, 0, EvictNext(cid, k)), At(0));
        StopAndEvict(cid, polls, now, k);
      }
    }

    ghost method AlreadyGone(cid: ContainerId, k: Kont)
      requires Valid() && pc == RemoveCheck(cid, k) && lock.None? && cid !in cache.containers
      modifies this`pc, this`worlds, this`events
      ensures Valid() && Extends() && pc == Resume(k) && cid !in disk.containers
    {
      Goto(Resume(k), At(0));
      KeysAgree();
    }

    method StopAndEvict(cid: ContainerId, polls: nat, now: int, ghost k: Kont)
      requires Valid() && Sound(k) && pc == StopRead(cid, 0, EvictNext(cid, k))
      modifies this
      ensures Valid() && Extends() && pc == Resume(k) && ever == old(ever) && reapers.Keys <= old(reapers.Keys)
      ensures cache.sandboxes == old(cache.sandboxes) && disk.sandboxes == old(disk.sandboxes)
      ensures cid !in cache.containers && cid !in disk.containers
      ensures OnlyReaped(old(cache.containers) - {cid}, cache.containers, old(reapers.Keys))
    {
      var _ := StopContainerThen(cid, 0, polls, now, EvictNext(cid, k));
      ghost var cs, live := cache.containers, reapers.Keys;
      EvictContainer(cid, k);
      OnlyReapedStopDrop(old(cache.containers), cs, cache.containers, cid, now, old(reapers.Keys), live);
    }

    method EvictIdle(cid: ContainerId, ghost k: Kont)
      requires Valid() && pc == RemoveCheck(cid, k) && lock.None?
      requires cid in cache.containers && cache.containers[cid].state != Running
      modifies this
      ensures Valid() && Extends() && pc == Resume(k) && ever == old(ever) && reapers.Keys <= old(reapers.Keys)
      ensures cache.sandboxes == old(cache.sandboxes) && disk.sandboxes == old(disk.sandboxes)
      ensures cid !in cache.containers && cid !in disk.containers
      ensures OnlyReaped(old(cache.containers) - {cid}, cache.containers, old(reapers.Keys))
    {
      Goto(Evict(cid, k), At(0));
      EvictContainer(cid, k);
    }

    /** Out of the cache first, then off the disk. */
    method EvictContainer(cid: ContainerId, ghost k: Kont)
      requires Valid() && pc == Evict(cid, k)
      modifies this
      ensures Valid() && Extends() && pc == Resume(k) && ever == old(ever) && reapers.Keys <= old(reapers.Keys)
      ensures cache.sandboxes == old(cache.sandboxes) && disk.sandboxes == old(disk.sandboxes)
      ensures cid !in cache.containers && cid !in disk.containers
      ensures OnlyReaped(old(cache.containers) - {cid}, cache.containers, old(reapers.Keys))
    {
      Interleave(true);
      ghost var cs, live := cache.containers, reapers.Keys;
      EvictLocked(cid, k);
      UnlinkContainer(cid, k);
      OnlyReapedThenDrop(old(cache.containers), cs, cache.containers, {cid}, old(reapers.Keys), live);
    }

    method EvictLocked(cid: ContainerId, ghost k: Kont)
      requires Valid() && pc == Evict(cid, k) && lock.None?
      modifies this`cache, this`pc, this`worlds, this`events
      ensures Valid() && Extends() && pc == Unlink(cid, k) && cache == DropContainer(old(cache), cid)
    {
      cache := DropContainer(cache, cid);
      pc := Unlink(cid, k);
      RecordStep(At(0));
    }

    method UnlinkContainer(cid: ContainerId, ghost k: Kont)
      requires Valid() && pc == Unlink(cid, k)
      modifies this
      ensures Valid() && Extends() && pc == Resume(k) && ever == old(ever) && reapers.Keys <= old(reapers.Keys)
      ensures cache.sandboxes == old(cache.sandboxes) && disk.sandboxes == old(disk.sandboxes)
      ensures cid !in disk.containers
      ensures OnlyReaped(old(cache.containers), cache.containers, old(reapers.Keys))
    {
      Interleave(false);
      disk := DropContainer(disk, cid);
      pc := Resume(k);
      RecordStep(At(0));
    }

    // -------------------------------------------------------------------
    // remove_sandbox
    // -------------------------------------------------------------------

    /** Remove a sandbox with all its containers. */
    method RemoveSandbox(sid: SandboxId, polls: nat, now: int)
      requires Valid() && pc.Idle?
      modifies this
      ensures Valid() && Extends() && pc.Idle?
      ensures cache.sandboxes == disk.sandboxes == old(cache.sandboxes) - {sid}
      ensures cache.containers.Keys == disk.containers.Keys
      ensures OnlyReaped(Outside(old(cache.containers), sid), cache.containers, old(reapers.Keys))
    {
      SandboxesAgree();
      Enter(RemoveSandboxCall(sid));
      StopSandboxThen(sid, CollectNext(sid));
      ghost var cs, live := cache.containers, reapers.Keys;
      Interleave(true);
      OnlyReapedTwice(old(cache.containers), cs, cache.containers, old(reapers.Keys), live);
      cs, live := cache.containers, reapers.Keys;
      if sid !in cache.sandboxes {
        NothingInside(sid);
        Goto(Idle, At(0));
      } else {
        RemoveContents(sid, polls, now);
        OutsideReaped(old(cache.containers), cs, cache.containers, sid, old(reapers.Keys), live);
      }
      KeysAgree();
    }

    /** A sandbox without a record has no containers. */
    lemma NothingInside(sid: SandboxId)
      requires Valid() && Settled(pc) && sid !in cache.sandboxes
      ensures Outside(cache.containers, sid) == cache.containers
    {
      Agreement();
    }

    /** The containers the cache files under a sandbox, as a list. */
    method ListContainers(sid: SandboxId) returns (listing: seq<ContainerId>)
      ensures Lists(Now(), sid, listing)
      ensures forall i, j | 0 <= i < j < |listing| :: listing[i] != listing[j]
    {
      listing := [];
      var left := cache.containers.Keys;
      while left != {}
        invariant left <= cache.containers.Keys
        invariant forall c <- listing :: c in cache.containers && cache.containers[c].sandbox == sid && c !in left
        invariant forall c <- cache.containers ::
          cache.containers[c].sandbox == sid ==> c in listing || c in left
        invariant forall i, j | 0 <= i < j < |listing| :: listing[i] != listing[j]
        decreases left
      {
        var c :| c in left;
        left := left - {c};
        if cache.containers[c].sandbox == sid { listing := listing + [c]; }
      }
    }

    method RemoveContents(sid: SandboxId, polls: nat, now: int)
      requires Valid() && pc == Collect(sid) && lock.None? && sid in cache.sandboxes
      modifies this
      ensures Valid() && Extends() && pc.Idle?
      ensures cache.sandboxes == old(cache.sandboxes) - {sid} && disk.sandboxes == old(disk.sandboxes) - {sid}
      ensures OnlyReaped(Outside(old(cache.containers), sid), cache.containers, old(reapers.Keys))
    {
      var listing := ListContainers(sid);
      Goto(Loop(sid, listing), At(0).(listing := listing));
      RemoveListed(sid, listing, polls, now);
      ghost var cs, live := cache.containers, reapers.Keys;
      assert old(cache.containers) - SetOf(listing) == Outside(old(cache.containers), sid);
      DropSandboxRecord(sid);
      OnlyReapedTwice(Outside(old(cache.containers), sid), cs, cache.containers, old(reapers.Keys), live);
    }

    /** The loop over the containers of the sandbox. */
    method RemoveListed(sid: SandboxId, listing: seq<ContainerId>, polls: nat, now: int)
      requires Valid() && pc == Loop(sid, listing)
      modifies this
      ensures Valid() && Extends() && pc == EvictSandbox(sid) && reapers.Keys <= old(reapers.Keys)
      ensures cache.sandboxes == old(cache.sandboxes) && disk.sandboxes == old(disk.sandboxes)
      ensures OnlyReaped(old(cache.containers) - SetOf(listing), cache.containers, old(reapers.Keys))
    {
      var i := 0;
      while i < |listing|
        invariant 0 <= i <= |listing|
        invariant Valid() && Extends() && pc == Loop(sid, listing[i..]) && reapers.Keys <= old(reapers.Keys)
        invariant cache.sandboxes == old(cache.sandboxes) && disk.sandboxes == old(disk.sandboxes)
        invariant OnlyReaped(old(cache.containers) - SetOf(listing[..i]), cache.containers, old(reapers.Keys))
      {
        DropOneMore(old(cache.containers), listing, i);
        ghost var cs, live := cache.containers, reapers.Keys;
        RemoveOne(sid, listing[i..], polls, now);
        OnlyReapedThenDrop(old(cache.containers) - SetOf(listing[..i]), cs, cache.containers, {listing[i]}, old(reapers.Keys), live);
        i := i + 1;
      }
      assert listing[..i] == listing;
      Goto(EvictSandbox(sid), At(0));
    }

    method RemoveOne(sid: SandboxId, todo: seq<ContainerId>, polls: nat, now: int)
      requires Valid() && pc == Loop(sid, todo) && todo != []
      modifies this
      ensures Valid() && Extends() && pc == Loop(sid, todo[1..]) && reapers.Keys <= old(reapers.Keys)
      ensures cache.sandboxes == old(cache.sandboxes) && disk.sandboxes == old(disk.sandboxes)
      ensures OnlyReaped(old(cache.containers) - {todo[0]}, cache.containers, old(reapers.Keys))
    {
      StopOne(sid, todo, polls, now);
      ghost var cs, live := cache.containers, reapers.Keys;
      RemoveContainerThen(todo[0], polls, now, LoopNext(sid, todo[1..]));
      OnlyReapedStopDrop(old(cache.containers), cs, cache.containers, todo[0], now, old(reapers.Keys), live);
    }

    method StopOne(sid: SandboxId, todo: seq<ContainerId>, polls: nat, now: int)
      requires Valid() && pc == Loop(sid, todo) && todo != []
      modifies this
      ensures Valid() && Extends() && pc == RemoveCheck(todo[0], LoopNext(sid, todo[1..])) && reapers.Keys <= old(reapers.Keys)
      ensures cache.sandboxes == old(cache.sandboxes) && disk.sandboxes == old(disk.sandboxes)
      ensures OnlyReaped(AfterStop(old(cache.containers), todo[0], 0, now), cache.containers, old(reapers.Keys))
    {
      Goto(StopRead(todo[0], 0, RemoveNext(sid, todo)), At(0));
      var _ := StopContainerThen(todo[0], 0, polls, now, RemoveNext(sid, todo));
    }

    method DropSandboxRecord(sid: SandboxId)
      requires Valid() && pc == EvictSandbox(sid) && sid in cache.sandboxes
      modifies this
      ensures Valid() && Extends() && pc.Idle?
      ensures cache.sandboxes == old(cache.sandboxes) - {sid} && disk.sandboxes == old(disk.sandboxes) - {sid}
      ensures OnlyReaped(old(cache.containers), cache.containers, old(reapers.Keys))
    {
      Interleave(true);
      ghost var cs, live := cache.containers, reapers.Keys;
      cache := DropSandbox(cache, sid);
      pc := UnlinkSandbox(sid);
      RecordStep(At(0));
      UnlinkSandboxFile(sid);
      OnlyReapedTwice(old(cache.containers), cs, cache.containers, old(reapers.Keys), live);
    }

    method UnlinkSandboxFile(sid: SandboxId)
      requires Valid() && pc == UnlinkSandbox(sid)
      modifies this
      ensures Valid() && Extends() && pc.Idle?
      ensures cache.sandboxes == old(cache.sandboxes) && disk.sandboxes == old(disk.sandboxes) - {sid}
      ensures OnlyReaped(old(cache.containers), cache.containers, old(reapers.Keys))
    {
      Interleave(false);
      disk := DropSandbox(disk, sid);
      pc := Idle;
      RecordStep(At(0));
    }
  }

  function SetOf(ids: seq<ContainerId>): set<ContainerId> { set c | c in ids }

  /** The containers of every other sandbox. */
  function Outside(cs: map<ContainerId, ContainerRecord>, sid: SandboxId): map<ContainerId, ContainerRecord> {
    map c | c in cs && cs[c].sandbox != sid :: cs[c]
  }

  lemma OutsideReaped(a: map<ContainerId, ContainerRecord>, b: map<ContainerId, ContainerRecord>,
                      c: map<ContainerId, ContainerRecord>, sid: SandboxId,
                      early: set<ContainerId>, late: set<ContainerId>)
    requires OnlyReaped(a, b, early) && OnlyReaped(Outside(b, sid), c, late) && late <= early
    ensures OnlyReaped(Outside(a, sid), c, early)
  {
  }

  /** A container that was never started. */
  function JustCreated(sid: SandboxId, config: string, now: int): ContainerRecord {
    ContainerRecord(sandbox := sid, config := config, state := Created, createdAt := now, startedAt := 0, finishedAt := 0,
                    exitCode := 0, reason := "", message := "", pid := 0)
  }

  function StartOutcome(cs: map<ContainerId, ContainerRecord>, cid: ContainerId, setup: bool, o: Oracle): Outcome {
    if cid !in cs then NotFound
    else if cs[cid].state != Created then FailedPrecondition
    else if setup && o.pid.Some? && o.fdsOk then Done
    else Internal
  }

  /** The record a started container is left with, before its reaper runs. */
  function AfterStart(cs: map<ContainerId, ContainerRecord>, cid: ContainerId, setup: bool, started: int, o: Oracle): map<ContainerId, ContainerRecord> {
    if cid !in cs || cs[cid].state != Created || !setup then cs
    else cs[cid := AfterSpawn(cs[cid].(state := Running, startedAt := started, pid := 0, reason := "starting"), o)]
  }

  function AfterSpawn(r: ContainerRecord, o: Oracle): ContainerRecord {
    match o.pid
    case None => r.(state := Exited, finishedAt := o.now, exitCode := -1, reason := "spawn-failed", message := o.why)
    case Some(pid) => if o.fdsOk then r.(pid := pid, reason := "") else r
  }

  function NotReadyIn(ss: map<SandboxId, SandboxRecord>, sid: SandboxId): map<SandboxId, SandboxRecord> {
    if sid in ss then ss[sid := ss[sid].(state := NotReady)] else ss
  }
}

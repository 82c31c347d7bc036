/** What the invariant gives over whole runs, with crashes and recoveries
    anywhere in them. */
module LifecycleSafety {
  import opened Options
  import opened Lifecycle
  import opened LifecycleInvariant

  lemma {:induction false} InvAlongRun(ws: seq<World>, es: seq<Event>, i: nat)
    requires IsRun(ws, es) && i < |ws|
    ensures Inv(ws[i])
  {
    if i > 0 {
      InvAlongRun(ws, es, i - 1);
      assert Takes(ws[i - 1], es[i - 1], ws[i]);
      StepKeepsInv(ws[i - 1], es[i - 1]);
    }
  }

  // ---------------------------------------------------------------------
  // The cache is a view of the disk
  // ---------------------------------------------------------------------

  /** Between calls, the cache is the disk, except for the one exit a reaper
      may be writing while it holds the lock. */
  lemma {:induction false} CacheIsDisk(ws: seq<World>, es: seq<Event>, i: nat)
    requires IsRun(ws, es) && i < |ws| && ws[i].pc.Idle?
    ensures ws[i].lock.None? ==> ws[i].cache == ws[i].disk
    ensures ws[i].cache == Pay(ws[i].disk, ws[i].lock)
  {
    InvAlongRun(ws, es, i);
  }

  /** The container whose file a reaper or the call in flight is about to write. */
  predicate BeingWritten(w: World, c: ContainerId) {
    || (w.lock.Some? && w.lock.value.0 == c)
    || (Owed(w.pc).Some? && Owed(w.pc).value.0 == c)
  }

  /** What a client sees of a container is its file, or the write of the next
      state is on its way. */
  predicate SeenOnDisk(w: World, c: ContainerId)
    requires c in w.cache.containers
  {
    && c in w.disk.containers
    && var seen, file := w.cache.containers[c], w.disk.containers[c];
      && seen.sandbox == file.sandbox && seen.config == file.config && seen.createdAt == file.createdAt
      && (seen == file || (BeingWritten(w, c) && Legal(file, seen)))
  }

  predicate SandboxSeenOnDisk(w: World, s: SandboxId)
    requires s in w.cache.sandboxes
  {
    && s in w.disk.sandboxes
    && (w.cache.sandboxes[s] == w.disk.sandboxes[s] || (w.pc.PersistStopped? && w.pc.sid == s))
  }

  /** At every point of every run, in the middle of any call: each record a
      client can see has a file, which is the record itself or one legal
      transition behind it with the write on its way; and every file of a
      container names a sandbox that has a file. */
  lemma {:induction false} VisibleIsDurable(ws: seq<World>, es: seq<Event>, i: nat)
    requires IsRun(ws, es) && i < |ws|
    ensures forall c <- ws[i].cache.containers :: SeenOnDisk(ws[i], c)
    ensures forall s <- ws[i].cache.sandboxes :: SandboxSeenOnDisk(ws[i], s)
    ensures forall c <- ws[i].disk.containers :: ws[i].disk.containers[c].sandbox in ws[i].disk.sandboxes
  {
    InvAlongRun(ws, es, i);
    var w := ws[i];
    if Serving(w.pc) {
      forall c | c in w.cache.containers ensures SeenOnDisk(w, c) { ContainerIsSeen(w, c); }
      forall s | s in w.cache.sandboxes ensures SandboxSeenOnDisk(w, s) { SandboxIsSeen(w, s); }
    }
  }

  lemma {:induction false} ContainerIsSeen(w: World, c: ContainerId)
    requires Inv(w) && Serving(w.pc) && c in w.cache.containers
    ensures SeenOnDisk(w, c)
  {
    var p, q := Published(w.cache, w.pc), Pay(PaidByCall(w.disk, w.pc), w.lock);
    assert p == q;
    assert c in p.containers && (w.pc.CacheContainer? ==> c != w.pc.cid);
    assert p.containers[c] == w.cache.containers[c];
    if !BeingWritten(w, c) {
      assert c in w.disk.containers && q.containers[c] == w.disk.containers[c];
    }
  }

  lemma {:induction false} SandboxIsSeen(w: World, s: SandboxId)
    requires Inv(w) && Serving(w.pc) && s in w.cache.sandboxes
    ensures SandboxSeenOnDisk(w, s)
  {
    var p, q := Published(w.cache, w.pc), Pay(PaidByCall(w.disk, w.pc), w.lock);
    assert p == q;
    assert s in p.sandboxes;
  }

  // ---------------------------------------------------------------------
  // Recovery
  // ---------------------------------------------------------------------

  /** What `open` leaves on disk and in the cache, whatever the order in which
      it meets the files. `alive` answers the liveness probe. */
  function RecoverAll(d: Db, alive: nat -> bool, at: ContainerId -> int): (r: Db)
    ensures r.sandboxes == d.sandboxes && r.containers.Keys == d.containers.Keys
  {
    d.(containers := map c | c in d.containers :: Recover(d.containers[c], alive(d.containers[c].pid), at(c)))
  }

  /** A record whose process ended while nobody watched it. */
  function Lost(r: ContainerRecord, now: int): ContainerRecord {
    r.(state := Exited, exitCode := -1, finishedAt := now,
       reason := if r.pid == 0 then "lost-start-window" else "lost-exit-reaped-elsewhere")
  }

  /** No Running record is left without a pid or with a dead one; nothing else
      is touched; a process that survived is still Running. */
  lemma {:induction false} RecoveryIsHonest(d: Db, alive: nat -> bool, at: ContainerId -> int, c: ContainerId)
    requires c in d.containers
    ensures var a, b := d.containers[c], RecoverAll(d, alive, at).containers[c];
      && (b.state == Running ==> b.pid > 0 && alive(b.pid))
      && (a != b <==> a.state == Running && (a.pid == 0 || !alive(a.pid)))
      && (a != b ==> Legal(a, b) && b == Lost(a, at(c)))
  {
  }

  /** Opening again under the same liveness changes nothing, whatever the clock says. */
  lemma {:induction false} RecoveryIsIdempotent(d: Db, alive: nat -> bool, at: ContainerId -> int, later: ContainerId -> int)
    ensures RecoverAll(RecoverAll(d, alive, at), alive, later) == RecoverAll(d, alive, at)
  {
    var once := RecoverAll(d, alive, at);
    forall c | c in d.containers
      ensures Recover(once.containers[c], alive(once.containers[c].pid), later(c)) == once.containers[c]
    {
      RecoveryIsHonest(d, alive, at, c);
    }
    assert RecoverAll(once, alive, later).containers == once.containers;
  }

  /** The container whose file comes before its cache entry, or outlives it. */
  predicate FileOnly(w: World, c: ContainerId) { (w.pc.CacheContainer? || w.pc.Unlink?) && w.pc.cid == c }

  lemma {:induction false} DomainsAgree(w: World, c: ContainerId)
    requires Inv(w) && Serving(w.pc)
    ensures c in w.disk.containers ==> c in w.cache.containers || FileOnly(w, c)
  {
    var p, q := Published(w.cache, w.pc), Pay(PaidByCall(w.disk, w.pc), w.lock);
    assert p == q;
    assert c in p.containers <==> c in q.containers;
  }

  /** A kill at any point, inside any call and any reaper's write, loses
      nothing: `open` rebuilds each record that clients saw, up to recovery, or
      the one it was legally replacing when its write had not come yet; and
      nothing else but the container being created or removed. */
  lemma {:induction false} CrashLosesNothing(ws: seq<World>, es: seq<Event>, i: nat, alive: nat -> bool, at: ContainerId -> int, c: ContainerId)
    requires IsRun(ws, es) && i < |ws| && Serving(ws[i].pc)
    ensures Enabled(ws[i], Crash) && KontsSound(ws[i].pc)
    ensures var rebuilt := RecoverAll(Apply(ws[i], Crash).disk, alive, at);
      && (c in rebuilt.containers ==> c in ws[i].cache.containers || FileOnly(ws[i], c))
      && (c in ws[i].cache.containers ==> c in rebuilt.containers)
      && (c in ws[i].cache.containers ==>
            || rebuilt.containers[c] == RecoverAll(ws[i].cache, alive, at).containers[c]
            || (BeingWritten(ws[i], c) && Legal(ws[i].disk.containers[c], ws[i].cache.containers[c])))
      && (ws[i].pc.Idle? && ws[i].lock.None? ==> rebuilt == RecoverAll(ws[i].cache, alive, at))
  {
    InvAlongRun(ws, es, i);
    DomainsAgree(ws[i], c);
    if c in ws[i].cache.containers { ContainerIsSeen(ws[i], c); }
  }

  // ---------------------------------------------------------------------
  // Containers move forward only
  // ---------------------------------------------------------------------

  /** 0 never seen, 1 Created, 2 Running, 3 Exited, 4 deleted: read off the disk alone. */
  function Stage(w: World, c: ContainerId): nat {
    if c in w.disk.containers then
      match w.disk.containers[c].state
      case Created => 1
      case Running => 2
      case Exited => 3
      case Unknown => 5
    else if c in w.ever then 4
    else 0
  }

  /** `b` is a possible later disk view of the container: the stage does not
      go back, and an Exited record is never rewritten. */
  predicate Forward(a: World, b: World, c: ContainerId) {
    && Stage(a, c) <= Stage(b, c)
    && (Stage(a, c) == Stage(b, c) == 3 ==> a.disk.containers[c] == b.disk.containers[c])
  }

  /** How one event may change one record file. */
  predicate FileStep(w: World, w': World, c: ContainerId) {
    && w.ever <= w'.ever
    && (c in w.disk.containers && c in w'.disk.containers ==>
          w'.disk.containers[c] == w.disk.containers[c] || Legal(w.disk.containers[c], w'.disk.containers[c]))
    && (c !in w.disk.containers && c in w'.disk.containers ==> c !in w.ever && w'.disk.containers[c].state == Created)
  }

  lemma {:induction false} OwedIsFileStep(w: World, o: Oracle, c: ContainerId)
    requires Inv(w) && Enabled(w, Step(o)) && Owed(w.pc).Some?
    ensures FileStep(w, Advance(w, o), c)
  {
    assert Advance(w, o).disk == Pay(w.disk, Owed(w.pc));
  }

  predicate TurnsTerminal(a: Db, b: Db, c: ContainerId) {
    && c in a.containers && c in b.containers
    && a.containers[c].state != Exited && b.containers[c].state == Exited
  }

  /** A step that owes no write changes at most the file it creates or
      removes. */
  lemma {:induction false} OtherWrites(w: World, o: Oracle)
    requires CanStep(w, o) && KontsSound(w.pc) && Owed(w.pc).None?
    ensures var w' := Advance(w, o);
      if w.pc.PersistContainer? then w'.disk == PutContainer(w.disk, w.pc.cid, w.pc.rec) && w'.ever == w.ever + {w.pc.cid}
      else w'.ever == w.ever && w'.disk.containers == if w.pc.Unlink? then w.disk.containers - {w.pc.cid} else w.disk.containers
  {
  }

  lemma {:induction false} OtherIsFileStep(w: World, o: Oracle, c: ContainerId)
    requires Inv(w) && Enabled(w, Step(o)) && Owed(w.pc).None?
    ensures FileStep(w, Advance(w, o), c)
    ensures !TurnsTerminal(w.disk, Advance(w, o).disk, c)
  {
    OtherWrites(w, o);
    assert w.pc.PersistContainer? ==> w.pc.cid !in w.disk.containers;
  }

  lemma {:induction false} EventIsFileStep(w: World, e: Event, c: ContainerId)
    requires Inv(w) && Enabled(w, e)
    ensures FileStep(w, Apply(w, e), c)
  {
    if e.Step? {
      if Owed(w.pc).Some? { OwedIsFileStep(w, e.o, c); } else { OtherIsFileStep(w, e.o, c); }
    }
  }

  lemma {:induction false} EventMovesForward(w: World, e: Event, c: ContainerId)
    requires Inv(w) && Enabled(w, e)
    ensures Forward(w, Apply(w, e), c)
  {
    EventIsFileStep(w, e, c);
    StepKeepsInv(w, e);
  }

  /** Over any run, through any number of crashes and recoveries, a container
      goes Created, Running, Exited, deleted and never back, and its terminal
      record is written once. */
  lemma {:induction false} RunMovesForward(ws: seq<World>, es: seq<Event>, i: nat, j: nat, c: ContainerId)
    requires IsRun(ws, es) && i <= j < |ws|
    ensures Forward(ws[i], ws[j], c)
    decreases j
  {
    if i < j {
      RunMovesForward(ws, es, i, j - 1, c);
      RunStepForward(ws, es, j - 1, c);
      ForwardIsTransitive(ws[i], ws[j - 1], ws[j], c);
    }
  }

  lemma {:induction false} RunStepForward(ws: seq<World>, es: seq<Event>, i: nat, c: ContainerId)
    requires IsRun(ws, es) && i < |es|
    ensures Forward(ws[i], ws[i + 1], c)
  {
    InvAlongRun(ws, es, i);
    assert Takes(ws[i], es[i], ws[i + 1]);
    EventMovesForward(ws[i], es[i], c);
  }

  lemma ForwardIsTransitive(a: World, b: World, d: World, c: ContainerId)
    requires Forward(a, b, c) && Forward(b, d, c)
    ensures Forward(a, d, c)
  {
  }

  /** A removed container stays removed: no late reaper, no recovery and no
      other call brings back its cache entry or its file. */
  lemma {:induction false} RemovedStaysRemoved(ws: seq<World>, es: seq<Event>, i: nat, j: nat, c: ContainerId)
    requires IsRun(ws, es) && i <= j < |ws|
    requires c in ws[i].ever && c !in ws[i].disk.containers
    ensures c !in ws[j].disk.containers && c !in ws[j].cache.containers
  {
    RunMovesForward(ws, es, i, j, c);
    InvAlongRun(ws, es, j);
    VisibleIsDurable(ws, es, j);
  }

  /** Who may turn a record file terminal: the reaper that watched the
      process, a failed spawn, `stop_container` only while no pid is recorded,
      or recovery. */
  predicate TerminalWriter(w: World, e: Event, c: ContainerId) {
    || (e.ReaperWrite? && w.lock.Some? && w.lock.value.0 == c && c in w.reapers)
    || (e.Step? && w.pc.PersistSpawnFailed? && w.pc.cid == c)
    || (e.Step? && w.pc.PersistStop? && w.pc.cid == c && c in w.disk.containers && w.disk.containers[c].pid == 0)
    || (e.OpenFile? && e.cid == c && c in w.disk.containers && (w.disk.containers[c].pid == 0 || !e.alive))
  }

  lemma {:induction false} OnlyTheseWriteTerminal(ws: seq<World>, es: seq<Event>, i: nat, c: ContainerId)
    requires IsRun(ws, es) && i < |es|
    requires c in ws[i].disk.containers && c in ws[i + 1].disk.containers
    requires ws[i].disk.containers[c].state != Exited && ws[i + 1].disk.containers[c].state == Exited
    ensures TerminalWriter(ws[i], es[i], c)
  {
    InvAlongRun(ws, es, i);
    assert Takes(ws[i], es[i], ws[i + 1]);
    if es[i].Step? { TerminalStep(ws[i], es[i].o, c); } else { TerminalEvent(ws[i], es[i], c); }
  }

  lemma {:induction false} TerminalStep(w: World, o: Oracle, c: ContainerId)
    requires Inv(w) && Enabled(w, Step(o)) && TurnsTerminal(w.disk, Advance(w, o).disk, c)
    ensures TerminalWriter(w, Step(o), c)
  {
    if Owed(w.pc).None? {
      OtherIsFileStep(w, o, c);
    } else {
      TerminalWrite(w, o, c);
    }
  }

  lemma {:induction false} TerminalWrite(w: World, o: Oracle, c: ContainerId)
    requires Inv(w) && Enabled(w, Step(o)) && Owed(w.pc).Some? && TurnsTerminal(w.disk, Advance(w, o).disk, c)
    ensures TerminalWriter(w, Step(o), c)
  {
    assert Advance(w, o).disk == Pay(w.disk, Owed(w.pc));
  }

  lemma {:induction false} TerminalEvent(w: World, e: Event, c: ContainerId)
    requires Inv(w) && Enabled(w, e) && !e.Step? && TurnsTerminal(w.disk, Apply(w, e).disk, c)
    ensures TerminalWriter(w, e, c)
  {
  }
}

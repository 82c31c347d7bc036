/** Safety of the exec driver over every interleaving: no lost wake-up, and
    all output before the FINs and the exit status. */
module ExecSafety {
  import opened Options
  import opened Bytes
  import opened ExecSession

  // ---------------------------------------------------------------------
  // Reading the wire
  // ---------------------------------------------------------------------

  /** The bytes a client gets on one stream. */
  function Payload(wire: seq<Frame>, sid: nat): seq<byte> {
    if wire == [] then []
    else Payload(wire[..|wire| - 1], sid) + BytesFor(wire[|wire| - 1], sid)
  }

  function BytesFor(f: Frame, sid: nat): seq<byte> { if f.Data? && f.sid == sid then f.payload else [] }

  /** Frames that neither end a stream nor report the exit. */
  predicate Open(f: Frame) { f.Reply? || f.Ping? || (f.Data? && !f.fin) }

  /** Frames that carry no output and no end of stream. */
  predicate Quiet(f: Frame) { f.Reply? || f.Ping? }

  predicate AllOpen(wire: seq<Frame>) { forall i | 0 <= i < |wire| :: Open(wire[i]) }
  predicate AllQuiet(wire: seq<Frame>) { forall i | 0 <= i < |wire| :: Quiet(wire[i]) }

  lemma {:induction false} PayloadAppend(wire: seq<Frame>, f: Frame, sid: nat)
    ensures Payload(wire + [f], sid) == Payload(wire, sid) + BytesFor(f, sid)
  {
    assert (wire + [f])[..|wire|] == wire;
  }

  /** What the completion path writes: the FINs of the open output streams,
      then the status, which also ends the error stream. */
  function Ending(p: Path): seq<Frame> { EndOut(p) + EndErr(p) + EndError(p) }

  // ---------------------------------------------------------------------
  // No lost wake-up
  // ---------------------------------------------------------------------

  /** Asleep with no wake-up delivered yet. */
  predicate Asleep(s: Session) {
    (s.path.pc.BarrierSleep? || s.path.pc.GateSleep?) && s.path.ticket == s.loop.notifies
  }

  predicate WakeInv(s: Session) {
    && (s.path.pc.BarrierCheck? || s.path.pc.GateCheck? || s.path.pc.BarrierSleep? || s.path.pc.GateSleep?
        ==> s.path.ticket <= s.loop.notifies)
    && (Asleep(s) && s.path.pc.BarrierSleep? && BarrierMet(s) ==> s.loop.pc.Notifying?)
    && (Asleep(s) && s.path.pc.GateSleep? && GateMet(s) ==> s.loop.pc.Renotifying?)
  }

  lemma {:induction false} WakeInvStep(s: Session, e: Event)
    requires WakeInv(s) && Enabled(s, e)
    ensures WakeInv(Apply(s, e))
  {
    match e
    case OfLoop(le) => LoopKeepsWake(s, le);
    case OfPath(pe) => PathKeepsWake(s, pe);
    case _ =>
  }

  lemma {:induction false} LoopKeepsWake(s: Session, e: LoopEvent)
    requires WakeInv(s) && LoopEnabled(s, e)
    ensures WakeInv(LoopApply(s, e))
  {
  }

  lemma {:induction false} PathKeepsWake(s: Session, e: PathEvent)
    requires WakeInv(s) && PathEnabled(s, e)
    ensures WakeInv(PathApply(s, e))
  {
  }

  lemma {:induction false} WakeInvRun(ss: seq<Session>, es: seq<Event>, i: nat)
    requires IsRun(ss, es) && i < |ss|
    ensures WakeInv(ss[i])
  {
    if i > 0 {
      WakeInvRun(ss, es, i - 1);
      assert Enabled(ss[i - 1], es[i - 1]);
      WakeInvStep(ss[i - 1], es[i - 1]);
    }
  }

  /** Whenever the completion path sleeps on a condition that already holds,
      the read loop stands between its update and its notify, and that notify
      wakes the sleeper. */
  lemma {:induction false} NoLostWakeup(ss: seq<Session>, es: seq<Event>, i: nat)
    requires IsRun(ss, es) && i < |ss| && Asleep(ss[i])
    requires if ss[i].path.pc.BarrierSleep? then BarrierMet(ss[i]) else GateMet(ss[i])
    ensures var e := OfLoop(if ss[i].path.pc.BarrierSleep? then Notify else Renotify);
      Enabled(ss[i], e) && Enabled(Apply(ss[i], e), OfPath(Wake))
  {
    WakeInvRun(ss, es, i);
  }

  // ---------------------------------------------------------------------
  // The pumps and the wire
  // ---------------------------------------------------------------------

  predicate PumpOk(cfg: Config, role: Role, p: Pump) {
    && FileOf(cfg, role).Some?
    && p.sent + p.held + p.rest == FileOf(cfg, role).value
    && (p.done ==> p.held == [] && p.rest == [])
  }

  /** The task list names each pump at most once; a pump not yet in it belongs
      to the read loop's current step. */
  predicate RegistryOk(s: Session) {
    && (forall r <- s.tasks.registered :: r in s.pumps)
    && (s.tasks.taken.Some? ==> forall r <- s.tasks.taken.value :: r in s.pumps)
    && (forall i, j | 0 <= i < j < |s.tasks.registered| :: s.tasks.registered[i] != s.tasks.registered[j])
    && (s.loop.pc.Pushing? ==> s.loop.role in s.pumps && s.loop.role !in s.tasks.registered)
    && (s.loop.pc.Spawning? ==> s.loop.role !in s.pumps && FileOf(s.cfg, s.loop.role).Some?)
  }

  /** Distinct roles have distinct ids, and a pump writes to the id of its role. */
  predicate RoutesOk(l: Loop, pumps: map<Role, Pump>) {
    && (forall r <- l.byRole :: l.byRole[r] in l.used)
    && (forall r, q | r in l.byRole && q in l.byRole && r != q :: l.byRole[r] != l.byRole[q])
    && (forall r <- pumps :: r in l.byRole && l.byRole[r] == pumps[r].sid)
    && (l.pc.Notifying? || l.pc.Spawning? ==> l.role in l.byRole && l.byRole[l.role] == l.sid)
  }

  /** What stands on the wire for one stream is what its pump sent. */
  function Sent(pumps: map<Role, Pump>, sid: nat): seq<byte> {
    if Stdout in pumps && pumps[Stdout].sid == sid then pumps[Stdout].sent
    else if Stderr in pumps && pumps[Stderr].sid == sid then pumps[Stderr].sent
    else []
  }

  ghost predicate WireOk(wire: seq<Frame>, pumps: map<Role, Pump>) {
    forall sid: nat :: Payload(wire, sid) == Sent(pumps, sid)
  }

  ghost predicate PumpsInv(s: Session) {
    && (forall r <- s.pumps :: PumpOk(s.cfg, r, s.pumps[r]))
    && RegistryOk(s)
    && (!s.loop.reopened ==> RoutesOk(s.loop, s.pumps) && WireOk(s.wire, s.pumps))
  }

  // ---------------------------------------------------------------------
  // The completion path
  // ---------------------------------------------------------------------

  function Phase(pc: PathPc): nat {
    match pc
    case Arming => 0
    case BarrierTicket => 1
    case BarrierCheck => 1
    case BarrierSleep => 1
    case GateTicket => 2
    case GateCheck => 2
    case GateSleep => 2
    case Selecting => 3
    case Draining => 4
    case Exiting => 5
    case Snapshotting => 6
    case Locking => 7
    case FinOut => 8
    case FinErr => 9
    case SendStatus => 10
    case Unlocking => 11
    case Teardown => 12
    case Gone => 13
  }

  function PhaseOf(s: Session): nat { Phase(s.path.pc) }

  /** The session left its normal path neither by a backstop nor by an early
      detach, the client opened each role once, and a tty session has no
      separate stderr file. */
  predicate Clean(s: Session) {
    !s.path.backstop && !s.path.leftEarly && !s.loop.reopened && (s.cfg.tty ==> s.cfg.err.None?)
  }

  /** Every output file of the session has a pump among these tasks. */
  predicate Covers(cfg: Config, tasks: seq<Role>) {
    && (cfg.out.Some? ==> Stdout in tasks)
    && (cfg.err.Some? ==> Stderr in tasks)
  }

  predicate CleanInv(s: Session) {
    && (PhaseOf(s) >= 2 ==> BarrierMet(s))
    && (PhaseOf(s) >= 3 ==> Covers(s.cfg, s.tasks.taken.GetOr(s.tasks.registered)))
    && (PhaseOf(s) >= 5 ==> Drained(s))
    && (s.tasks.taken.Some? ==> PhaseOf(s) >= 3)
  }

  /** What the completion path has written so far. */
  function Written(p: Path): seq<Frame> {
    match p.pc
    case FinOut => []
    case FinErr => EndOut(p)
    case SendStatus => EndOut(p) + EndErr(p)
    case _ => Ending(p)
  }

  /** Before it takes the lock only open frames are on the wire; then its own
      follow, and once it let go of the lock others may come behind them. */
  predicate EndingOk(wire: seq<Frame>, p: Path) {
    if Phase(p.pc) < 8 then AllOpen(wire)
    else
      && p.mark <= |wire| && AllOpen(wire[..p.mark])
      && if Phase(p.pc) < 12 then wire[p.mark..] == Written(p) else Ending(p) <= wire[p.mark..]
  }

  predicate ExitOk(s: Session) {
    PhaseOf(s) >= 6 ==> s.path.exit == if s.cfg.verb == Attach then 0 else s.cfg.code
  }

  /** The ids written to are those of the roles. */
  predicate IdsOk(s: Session) {
    PhaseOf(s) >= 7 ==>
      && s.path.ids.out == Lookup(s.loop.byRole, Stdout)
      && s.path.ids.error == Lookup(s.loop.byRole, Error)
      && (!s.cfg.tty || s.path.ids.err.Some? ==> s.path.ids.err == Lookup(s.loop.byRole, Stderr))
  }

  /** Only replies and pings follow the ending. */
  predicate QuietOk(s: Session) {
    PhaseOf(s) >= 12 ==>
      && s.path.mark + |Ending(s.path)| <= |s.wire|
      && AllQuiet(s.wire[s.path.mark + |Ending(s.path)|..])
  }

  predicate TailInv(s: Session) { IdsOk(s) && QuietOk(s) }

  ghost predicate Inv(s: Session) {
    && PumpsInv(s)
    && EndingOk(s.wire, s.path)
    && ExitOk(s)
    && (Clean(s) ==> CleanInv(s) && TailInv(s))
  }

  // ---------------------------------------------------------------------
  // Every step keeps it
  // ---------------------------------------------------------------------

  /** Writing outside the lock adds one open frame behind whatever is there. */
  lemma {:induction false} AppendKeepsEnding(wire: seq<Frame>, p: Path, f: Frame)
    requires EndingOk(wire, p) && Open(f)
    requires !p.pc.FinOut? && !p.pc.FinErr? && !p.pc.SendStatus? && !p.pc.Unlocking?
    ensures EndingOk(wire + [f], p)
  {
    if Phase(p.pc) >= 8 {
      WriteGoesBehind(wire, p.mark, [f]);
    }
  }

  /** A frame without payload leaves every stream's bytes alone. */
  lemma {:induction false} EmptyFrameKeepsWire(wire: seq<Frame>, f: Frame, pumps: map<Role, Pump>)
    requires WireOk(wire, pumps) && (f.Data? ==> f.payload == [])
    ensures WireOk(wire + [f], pumps)
  {
    forall sid: nat
      ensures Payload(wire + [f], sid) == Sent(pumps, sid)
    {
      PayloadAppend(wire, f, sid);
      assert Payload(wire, sid) == Sent(pumps, sid);
    }
  }

  /** A pump that has sent nothing yet does not show on the wire. */
  lemma {:induction false} SpawnKeepsWire(wire: seq<Frame>, pumps: map<Role, Pump>, role: Role, p: Pump)
    requires WireOk(wire, pumps) && role !in pumps && p.sent == []
    requires Stdout in pumps && Stderr in pumps[role := p] ==> pumps[Stdout].sid != pumps[role := p][Stderr].sid
    requires Stderr in pumps && Stdout in pumps[role := p] ==> pumps[Stderr].sid != pumps[role := p][Stdout].sid
    ensures WireOk(wire, pumps[role := p])
  {
    forall sid: nat
      ensures Payload(wire, sid) == Sent(pumps[role := p], sid)
    {
      assert Payload(wire, sid) == Sent(pumps, sid);
    }
  }

  lemma {:induction false} SpawnKeepsPumps(s: Session)
    requires Inv(s) && LoopEnabled(s, LoopEvent.Spawn)
    ensures PumpsInv(LoopApply(s, LoopEvent.Spawn))
  {
    var p := LoopApply(s, LoopEvent.Spawn).pumps[s.loop.role];
    assert p.sent + p.held + p.rest == p.rest;
    if !s.loop.reopened { SpawnKeepsWire(s.wire, s.pumps, s.loop.role, p); }
  }

  lemma {:induction false} LoopKeepsPumps(s: Session, e: LoopEvent)
    requires Inv(s) && LoopEnabled(s, e)
    ensures PumpsInv(LoopApply(s, e))
  {
    match e
    case ClientPing(id) => if !s.loop.reopened { EmptyFrameKeepsWire(s.wire, Ping(id), s.pumps); }
    case SendReply => if !s.loop.reopened { EmptyFrameKeepsWire(s.wire, Reply(s.loop.sid), s.pumps); }
    case Spawn => SpawnKeepsPumps(s);
    case _ =>
  }

  lemma {:induction false} LoopKeepsClean(s: Session, e: LoopEvent)
    requires Inv(s) && LoopEnabled(s, e) && Clean(LoopApply(s, e))
    ensures CleanInv(LoopApply(s, e))
  {
  }

  lemma {:induction false} LoopKeepsIds(s: Session, e: LoopEvent)
    requires IdsOk(s) && CleanInv(s) && LoopEnabled(s, e) && Clean(LoopApply(s, e))
    ensures IdsOk(LoopApply(s, e))
  {
  }

  lemma {:induction false} LoopKeepsQuiet(s: Session, e: LoopEvent)
    requires QuietOk(s) && LoopEnabled(s, e)
    ensures QuietOk(LoopApply(s, e))
  {
  }

  lemma {:induction false} LoopKeepsInv(s: Session, e: LoopEvent)
    requires Inv(s) && LoopEnabled(s, e)
    ensures Inv(LoopApply(s, e))
  {
    LoopKeepsPumps(s, e);
    if e.ClientPing? { AppendKeepsEnding(s.wire, s.path, Ping(e.id)); }
    if e.SendReply? { AppendKeepsEnding(s.wire, s.path, Reply(s.loop.sid)); }
    if Clean(LoopApply(s, e)) {
      LoopKeepsClean(s, e);
      LoopKeepsIds(s, e);
      LoopKeepsQuiet(s, e);
    }
  }

  lemma {:induction false} SameSentKeepsWire(wire: seq<Frame>, pumps: map<Role, Pump>, after: map<Role, Pump>)
    requires WireOk(wire, pumps) && after.Keys == pumps.Keys
    requires forall r <- pumps :: after[r].sid == pumps[r].sid && after[r].sent == pumps[r].sent
    ensures WireOk(wire, after)
  {
    forall sid: nat
      ensures Payload(wire, sid) == Sent(after, sid)
    {
      assert Payload(wire, sid) == Sent(pumps, sid);
    }
  }

  /** Reading moves bytes inside one pump and changes nothing it has sent. */
  lemma {:induction false} ReadKeepsPumps(s: Session, role: Role, n: nat)
    requires Inv(s) && PumpEnabled(s, ReadFile(role, n))
    ensures PumpsInv(PumpApply(s, ReadFile(role, n)))
  {
    var p, s' := s.pumps[role], PumpApply(s, ReadFile(role, n));
    assert p.rest[..n] + p.rest[n..] == p.rest;
    assert PumpOk(s.cfg, role, p);
    assert p.sent + p.held + p.rest == p.sent + p.rest[..n] + p.rest[n..];
    if !s.loop.reopened { SameSentKeepsWire(s.wire, s.pumps, s'.pumps); }
  }

  /** Once a clean session is past its drain, no pump has anything left to write. */
  lemma {:induction false} NothingLeftToWrite(s: Session, role: Role)
    requires PumpsInv(s) && CleanInv(s) && PhaseOf(s) >= 5 && role in s.pumps
    ensures s.pumps[role].done && s.pumps[role].held == [] && s.pumps[role].rest == []
  {
    assert PumpOk(s.cfg, role, s.pumps[role]);
  }

  lemma {:induction false} ReadKeepsInv(s: Session, role: Role, n: nat)
    requires Inv(s) && PumpEnabled(s, ReadFile(role, n))
    ensures Inv(PumpApply(s, ReadFile(role, n)))
  {
    ReadKeepsPumps(s, role, n);
  }

  /** A pump's write puts its held bytes on its own stream and on no other. */
  lemma {:induction false} DataKeepsWire(wire: seq<Frame>, pumps: map<Role, Pump>, role: Role)
    requires WireOk(wire, pumps) && role in pumps && (role == Stdout || role == Stderr)
    requires Stdout in pumps && Stderr in pumps ==> pumps[Stdout].sid != pumps[Stderr].sid
    ensures var p := pumps[role];
      WireOk(wire + [Data(p.sid, false, p.held)], pumps[role := p.(sent := p.sent + p.held, held := [])])
  {
    var p := pumps[role];
    var f, after := Data(p.sid, false, p.held), pumps[role := p.(sent := p.sent + p.held, held := [])];
    forall sid: nat
      ensures Payload(wire + [f], sid) == Sent(after, sid)
    {
      PayloadAppend(wire, f, sid);
      assert Payload(wire, sid) == Sent(pumps, sid);
      SentAfterData(pumps, role, sid);
    }
  }

  lemma SentAfterData(pumps: map<Role, Pump>, role: Role, sid: nat)
    requires role in pumps && (role == Stdout || role == Stderr)
    requires Stdout in pumps && Stderr in pumps ==> pumps[Stdout].sid != pumps[Stderr].sid
    ensures var p := pumps[role];
      Sent(pumps[role := p.(sent := p.sent + p.held, held := [])], sid)
        == Sent(pumps, sid) + BytesFor(Data(p.sid, false, p.held), sid)
  {
  }

  lemma {:induction false} WriteKeepsPumps(s: Session, role: Role)
    requires Inv(s) && PumpEnabled(s, WriteData(role))
    ensures PumpsInv(PumpApply(s, WriteData(role)))
  {
    var p := s.pumps[role];
    assert PumpOk(s.cfg, role, p);
    assert p.sent + p.held + [] + p.rest == p.sent + p.held + p.rest;
    if !s.loop.reopened { DataKeepsWire(s.wire, s.pumps, role); }
  }

  lemma {:induction false} WriteKeepsInv(s: Session, role: Role)
    requires Inv(s) && PumpEnabled(s, WriteData(role))
    ensures Inv(PumpApply(s, WriteData(role)))
  {
    var p := s.pumps[role];
    WriteKeepsPumps(s, role);
    AppendKeepsEnding(s.wire, s.path, Data(p.sid, false, p.held));
    if Clean(s) && PhaseOf(s) >= 5 { NothingLeftToWrite(s, role); }
  }

  /** Enough registered pumps means: one for each output file. */
  lemma {:induction false} GateCovers(s: Session)
    requires PumpsInv(s) && GateMet(s) && (s.cfg.tty ==> s.cfg.err.None?)
    ensures Covers(s.cfg, s.tasks.registered)
  {
    var reg := s.tasks.registered;
    forall i | 0 <= i < |reg|
      ensures FileOf(s.cfg, reg[i]).Some?
    {
      assert reg[i] in reg;
      assert PumpOk(s.cfg, reg[i], s.pumps[reg[i]]);
    }
    if ExpectedPumps(s.cfg) >= 1 { assert reg[0] in reg; }
    if ExpectedPumps(s.cfg) == 2 {
      assert reg[1] in reg;
      assert reg[0] != reg[1];
    }
  }

  lemma {:induction false} PathKeepsPumps(s: Session, e: PathEvent)
    requires Inv(s) && PathEnabled(s, e)
    ensures PumpsInv(PathApply(s, e))
  {
    if e.Write? {
      if NextFrames(s.path) == [] { assert s.wire + NextFrames(s.path) == s.wire; }
      else if !s.loop.reopened { EmptyFrameKeepsWire(s.wire, NextFrames(s.path)[0], s.pumps); }
    }
  }

  lemma {:induction false} WrittenGrows(p: Path, pc: PathPc)
    requires (p.pc == FinOut && pc == FinErr) || (p.pc == FinErr && pc == SendStatus) || (p.pc == SendStatus && pc == Unlocking)
    ensures Written(p.(pc := pc)) == Written(p) + NextFrames(p)
  {
  }

  lemma WriteGoesBehind(wire: seq<Frame>, mark: nat, more: seq<Frame>)
    requires mark <= |wire|
    ensures (wire + more)[..mark] == wire[..mark] && (wire + more)[mark..] == wire[mark..] + more
  {
  }

  lemma {:induction false} WriteKeepsEnding(wire: seq<Frame>, p: Path, pc: PathPc)
    requires EndingOk(wire, p)
    requires (p.pc == FinOut && pc == FinErr) || (p.pc == FinErr && pc == SendStatus) || (p.pc == SendStatus && pc == Unlocking)
    ensures EndingOk(wire + NextFrames(p), p.(pc := pc))
  {
    WrittenGrows(p, pc);
    WriteGoesBehind(wire, p.mark, NextFrames(p));
  }

  lemma {:induction false} TurnKeepsEnding(s: Session, e: PathEvent)
    requires EndingOk(s.wire, s.path) && PathEnabled(s, e) && !e.Write?
    ensures EndingOk(s.wire, NextPath(s, e))
  {
    if e.Lock? { assert s.wire[..|s.wire|] == s.wire && s.wire[|s.wire|..] == []; }
  }

  lemma {:induction false} PathKeepsEnding(s: Session, e: PathEvent)
    requires EndingOk(s.wire, s.path) && PathEnabled(s, e)
    ensures EndingOk(PathApply(s, e).wire, PathApply(s, e).path)
  {
    if e.Write? { WriteKeepsEnding(s.wire, s.path, NextPath(s, e).pc); } else { TurnKeepsEnding(s, e); }
  }

  lemma {:induction false} PathKeepsBarrier(s: Session, e: PathEvent)
    requires CleanInv(s) && PathEnabled(s, e) && Clean(PathApply(s, e))
    ensures var s' := PathApply(s, e);
      && (PhaseOf(s') >= 2 ==> BarrierMet(s'))
      && (s'.tasks.taken.Some? ==> PhaseOf(s') >= 3)
  {
  }

  lemma {:induction false} PathKeepsCovers(s: Session, e: PathEvent)
    requires CleanInv(s) && PathEnabled(s, e) && Clean(PathApply(s, e))
    requires e.Check? && s.path.pc.GateCheck? && GateMet(s) ==> Covers(s.cfg, s.tasks.registered)
    ensures var s' := PathApply(s, e);
      PhaseOf(s') >= 3 ==> Covers(s'.cfg, s'.tasks.taken.GetOr(s'.tasks.registered))
  {
  }

  lemma {:induction false} PathKeepsDrained(s: Session, e: PathEvent)
    requires CleanInv(s) && PathEnabled(s, e) && Clean(PathApply(s, e))
    ensures PhaseOf(PathApply(s, e)) >= 5 ==> Drained(PathApply(s, e))
  {
  }

  lemma {:induction false} PathKeepsClean(s: Session, e: PathEvent)
    requires CleanInv(s) && PathEnabled(s, e) && Clean(PathApply(s, e))
    requires e.Check? && s.path.pc.GateCheck? && GateMet(s) ==> Covers(s.cfg, s.tasks.registered)
    ensures CleanInv(PathApply(s, e))
  {
    PathKeepsBarrier(s, e);
    PathKeepsCovers(s, e);
    PathKeepsDrained(s, e);
  }

  lemma {:induction false} PathKeepsIds(s: Session, e: PathEvent)
    requires IdsOk(s) && PathEnabled(s, e)
    ensures IdsOk(PathApply(s, e))
  {
  }

  lemma LateTurns(s: Session, e: PathEvent)
    requires PathEnabled(s, e) && Phase(NextPath(s, e).pc) >= 12
    ensures e.Unlock? || e.Leave?
  {
  }

  lemma {:induction false} PathKeepsQuiet(s: Session, e: PathEvent)
    requires QuietOk(s) && EndingOk(s.wire, s.path) && PathEnabled(s, e)
    ensures QuietOk(PathApply(s, e))
  {
    if Phase(NextPath(s, e).pc) >= 12 {
      LateTurns(s, e);
      if e.Unlock? { TailAtUnlock(s.wire, s.path); }
    }
  }

  lemma {:induction false} TailAtUnlock(wire: seq<Frame>, p: Path)
    requires EndingOk(wire, p) && p.pc.Unlocking?
    ensures p.mark + |Ending(p)| == |wire| && AllQuiet(wire[p.mark + |Ending(p)|..])
  {
    assert wire[p.mark..] == Ending(p);
  }

  lemma {:induction false} PathKeepsExit(s: Session, e: PathEvent)
    requires ExitOk(s) && PathEnabled(s, e)
    ensures ExitOk(PathApply(s, e))
  {
  }

  lemma {:induction false} PathKeepsCleanAndTail(s: Session, e: PathEvent)
    requires Inv(s) && PathEnabled(s, e) && Clean(PathApply(s, e))
    ensures CleanInv(PathApply(s, e)) && TailInv(PathApply(s, e))
  {
    if e.Check? && s.path.pc.GateCheck? && GateMet(s) { GateCovers(s); }
    PathKeepsClean(s, e);
    PathKeepsIds(s, e);
    PathKeepsQuiet(s, e);
  }

  lemma {:induction false} PathKeepsInv(s: Session, e: PathEvent)
    requires Inv(s) && PathEnabled(s, e)
    ensures Inv(PathApply(s, e))
  {
    PathKeepsPumps(s, e);
    PathKeepsEnding(s, e);
    PathKeepsExit(s, e);
    if Clean(PathApply(s, e)) { PathKeepsCleanAndTail(s, e); }
  }

  lemma {:induction false} InvStep(s: Session, e: Event)
    requires Inv(s) && Enabled(s, e)
    ensures Inv(Apply(s, e))
  {
    match e
    case OfLoop(le) => LoopKeepsInv(s, le);
    case OfPump(ReadFile(role, n)) => ReadKeepsInv(s, role, n);
    case OfPump(WriteData(role)) => WriteKeepsInv(s, role);
    case OfPath(pe) => PathKeepsInv(s, pe);
    case Resolve =>
  }

  lemma {:induction false} InvRun(ss: seq<Session>, es: seq<Event>, i: nat)
    requires IsRun(ss, es) && i < |ss|
    ensures Inv(ss[i])
  {
    if i > 0 {
      InvRun(ss, es, i - 1);
      assert Enabled(ss[i - 1], es[i - 1]);
      InvStep(ss[i - 1], es[i - 1]);
    }
  }

  // ---------------------------------------------------------------------
  // Main results
  // ---------------------------------------------------------------------

  lemma {:induction false} PayloadOfEmptyTail(a: seq<Frame>, b: seq<Frame>, sid: nat)
    requires forall f <- b :: f.Data? ==> f.payload == []
    ensures Payload(a + b, sid) == Payload(a, sid)
  {
    if b == [] {
      assert a + b == a;
    } else {
      var n := |b| - 1;
      assert a + b == (a + b[..n]) + [b[n]];
      PayloadAppend(a + b[..n], b[n], sid);
      PayloadOfEmptyTail(a, b[..n], sid);
    }
  }

  /** The whole output of a role that is open. */
  function Output(s: Session, role: Role): seq<byte> { FileOf(s.cfg, role).GetOr([]) }

  lemma {:induction false} AllSent(s: Session, role: Role)
    requires Inv(s) && Clean(s) && PhaseOf(s) >= 5 && role in s.loop.byRole && (role == Stdout || role == Stderr)
    ensures Payload(s.wire, s.loop.byRole[role]) == Output(s, role)
  {
    var sid := s.loop.byRole[role];
    assert Payload(s.wire, sid) == Sent(s.pumps, sid);
    if FileOf(s.cfg, role).Some? {
      NothingLeftToWrite(s, role);
      assert PumpOk(s.cfg, role, s.pumps[role]);
      assert s.pumps[role].sent + [] + [] == s.pumps[role].sent;
    } else {
      assert role in s.pumps ==> PumpOk(s.cfg, role, s.pumps[role]);
    }
  }

  lemma {:induction false} SplitWire(wire: seq<Frame>, mark: nat, e: seq<Frame>)
    requires mark <= |wire| && e <= wire[mark..]
    ensures mark + |e| <= |wire| && wire[mark..mark + |e|] == e
    ensures wire == wire[..mark] + (e + wire[mark + |e|..])
  {
    assert wire[mark..][..|e|] == wire[mark..mark + |e|];
  }

  /** Output, then the FINs and the status back to back, then only replies and pings. */
  predicate Ordered(s: Session) {
    var p := s.path;
    && p.mark + |Ending(p)| <= |s.wire|
    && AllOpen(s.wire[..p.mark])
    && s.wire[p.mark..p.mark + |Ending(p)|] == Ending(p)
    && AllQuiet(s.wire[p.mark + |Ending(p)|..])
  }

  /** Everything the session's file for this role yielded stands before the ending. */
  predicate Delivered(s: Session, role: Role) {
    role in s.loop.byRole && s.path.mark <= |s.wire|
    && Payload(s.wire[..s.path.mark], s.loop.byRole[role]) == Output(s, role)
  }

  lemma {:induction false} EndingIsEmpty(p: Path, after: seq<Frame>)
    requires AllQuiet(after)
    ensures forall f <- Ending(p) + after :: f.Data? ==> f.payload == []
  {
    forall i | 0 <= i < |after|
      ensures !after[i].Data?
    {
    }
  }

  lemma {:induction false} PayloadBeforeEmpty(wire: seq<Frame>, mark: nat, tail: seq<Frame>, sid: nat)
    requires mark <= |wire| && wire == wire[..mark] + tail && forall f <- tail :: f.Data? ==> f.payload == []
    ensures Payload(wire[..mark], sid) == Payload(wire, sid)
  {
    PayloadOfEmptyTail(wire[..mark], tail, sid);
  }

  lemma {:induction false} PayloadBeforeEnding(wire: seq<Frame>, p: Path, sid: nat)
    requires p.mark <= |wire| && Ending(p) <= wire[p.mark..]
    requires p.mark + |Ending(p)| <= |wire| && AllQuiet(wire[p.mark + |Ending(p)|..])
    ensures Payload(wire[..p.mark], sid) == Payload(wire, sid)
  {
    var after := wire[p.mark + |Ending(p)|..];
    SplitWire(wire, p.mark, Ending(p));
    EndingIsEmpty(p, after);
    PayloadBeforeEmpty(wire, p.mark, Ending(p) + after, sid);
  }

  lemma {:induction false} NothingComesLate(s: Session, sid: nat)
    requires EndingOk(s.wire, s.path) && QuietOk(s) && PhaseOf(s) >= 12
    ensures s.path.mark <= |s.wire| && Payload(s.wire[..s.path.mark], sid) == Payload(s.wire, sid)
  {
    PayloadBeforeEnding(s.wire, s.path, sid);
  }

  lemma {:induction false} OutputDelivered(s: Session, role: Role)
    requires Inv(s) && Clean(s) && PhaseOf(s) >= 12 && role in s.loop.byRole && (role == Stdout || role == Stderr)
    ensures Delivered(s, role)
  {
    AllSent(s, role);
    NothingComesLate(s, s.loop.byRole[role]);
  }

  /** Under every interleaving of a session that took neither a backstop nor
      an early detach: the DATA on stdout and stderr is the whole output of the
      session; then come the FINs of those streams and the status with the
      waiter's code, back to back; and after them nothing but replies and
      pings. */
  lemma {:induction false} OutputThenFinsThenStatus(ss: seq<Session>, es: seq<Event>, i: nat)
    requires IsRun(ss, es) && i < |ss| && Clean(ss[i]) && PhaseOf(ss[i]) >= 12
    ensures Ordered(ss[i])
    ensures Delivered(ss[i], Stdout)
    ensures !ss[i].cfg.tty || ss[i].path.ids.err.Some? ==> Delivered(ss[i], Stderr)
    ensures Error in ss[i].loop.byRole
    ensures var (m, ids) := (ss[i].loop.byRole, ss[i].path.ids);
      && ids.out == Some(m[Stdout])
      && ids.error == Some(m[Error])
      && (!ss[i].cfg.tty || ids.err.Some? ==> ids.err == Some(m[Stderr]))
      && (ss[i].cfg.verb == Exec ==> ss[i].path.exit == ss[i].cfg.code)
  {
    InvRun(ss, es, i);
    var s := ss[i];
    assert Error in Expected(s.cfg) && Stdout in Expected(s.cfg) && (!s.cfg.tty ==> Stderr in Expected(s.cfg));
    SplitWire(s.wire, s.path.mark, Ending(s.path));
    OutputDelivered(s, Stdout);
    if !s.cfg.tty || s.path.ids.err.Some? { OutputDelivered(s, Stderr); }
  }

  /** Frames that end a stream. */
  predicate Ends(f: Frame, sid: nat) {
    (f.Data? && f.fin && f.sid == sid) || (f.Status? && f.sid == sid)
  }

  lemma {:induction false} FrameAt(s: Session, j: nat)
    requires Ordered(s) && j < |s.wire|
    ensures var (m, n) := (s.path.mark, |Ending(s.path)|);
      && (j < m ==> Open(s.wire[j]))
      && (m <= j < m + n ==> s.wire[j] == Ending(s.path)[j - m])
      && (m + n <= j ==> Quiet(s.wire[j]))
  {
    var (m, n) := (s.path.mark, |Ending(s.path)|);
    if j < m { assert s.wire[j] == s.wire[..m][j]; }
    else if j < m + n { assert s.wire[j] == s.wire[m..m + n][j - m]; }
    else { assert s.wire[j] == s.wire[m + n..][j - m - n]; }
  }

  /** The server ends each output stream and the error stream exactly once,
      and no bytes follow on that stream. On a tty session the stderr stream is
      optional. */
  lemma {:induction false} EndedOnce(ss: seq<Session>, es: seq<Event>, i: nat, role: Role) returns (k: nat)
    requires IsRun(ss, es) && i < |ss| && Clean(ss[i]) && PhaseOf(ss[i]) >= 12
    requires role == Stdout || role == Error || (role == Stderr && (!ss[i].cfg.tty || ss[i].path.ids.err.Some?))
    ensures role in ss[i].loop.byRole && k < |ss[i].wire| && Ends(ss[i].wire[k], ss[i].loop.byRole[role])
    ensures forall j | 0 <= j < |ss[i].wire| && j != k :: !Ends(ss[i].wire[j], ss[i].loop.byRole[role])
    ensures forall j | k < j < |ss[i].wire| :: ss[i].wire[j].Data? ==> ss[i].wire[j].payload == []
  {
    OutputThenFinsThenStatus(ss, es, i);
    InvRun(ss, es, i);
    var s := ss[i];
    var n, e := |Ending(s.path)|, Ending(s.path);
    var at := match role case Stdout => 0 case Stderr => 1 case _ => n - 1;
    k := s.path.mark + at;
    EndingEndsOnce(s, role, at);
    forall j | 0 <= j < |s.wire|
      ensures j != k ==> !Ends(s.wire[j], s.loop.byRole[role])
      ensures j == k ==> Ends(s.wire[j], s.loop.byRole[role])
      ensures j > k && s.wire[j].Data? ==> s.wire[j].payload == []
    {
      FrameAt(s, j);
    }
  }

  lemma {:induction false} EndingEndsOnce(s: Session, role: Role, at: nat)
    requires RoutesOk(s.loop, s.pumps) && TailInv(s) && PhaseOf(s) >= 12
    requires s.path.ids.out.Some? && s.path.ids.error.Some?
    requires (role == Stdout && at == 0) || (role == Error && at == |Ending(s.path)| - 1)
          || (role == Stderr && s.path.ids.err.Some? && at == 1)
    ensures role in s.loop.byRole && at < |Ending(s.path)|
    ensures forall j | 0 <= j < |Ending(s.path)| ::
      && (Ending(s.path)[j].Data? ==> Ending(s.path)[j].payload == [])
      && (Ends(Ending(s.path)[j], s.loop.byRole[role]) <==> j == at)
  {
  }
}

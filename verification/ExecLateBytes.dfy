/** Bytes behind a FIN: exactly when a session can put them there, and which
    of its ways out allow it. */
module ExecLateBytes {
  import opened Options
  import opened Bytes
  import opened ExecSession
  import opened ExecSafety

  /** What may happen from a given state on. */
  ghost predicate IsPath(from: Session, ss: seq<Session>, es: seq<Event>) {
    && |ss| == |es| + 1
    && ss[0] == from
    && forall i {:trigger es[i]} | 0 <= i < |es| :: Enabled(ss[i], es[i]) && ss[i + 1] == Apply(ss[i], es[i])
  }

  lemma {:induction false} PathInv(from: Session, ss: seq<Session>, es: seq<Event>, i: nat)
    requires IsPath(from, ss, es) && Inv(from) && i <= |es|
    ensures Inv(ss[i])
  {
    if i > 0 {
      PathInv(from, ss, es, i - 1);
      assert Enabled(ss[i - 1], es[i - 1]);
      InvStep(ss[i - 1], es[i - 1]);
    }
  }

  predicate Carries(f: Frame, sid: nat) { f.Data? && f.sid == sid && f.payload != [] }

  /** The wire grew from a to b by frames without bytes for that stream. */
  predicate Grows(a: seq<Frame>, more: seq<Frame>, b: seq<Frame>, sid: nat) {
    b == a + more && forall f <- more :: !Carries(f, sid)
  }

  lemma GrowsOn(a: seq<Frame>, more: seq<Frame>, b: seq<Frame>, next: seq<Frame>, c: seq<Frame>, sid: nat)
    requires Grows(a, more, b, sid) && Grows(b, next, c, sid)
    ensures Grows(a, more + next, c, sid)
  {
  }

  /** Bytes on a stream after its end. */
  predicate LateByte(wire: seq<Frame>, sid: nat) {
    exists i, j :: 0 <= i < j < |wire| && Ends(wire[i], sid) && Carries(wire[j], sid)
  }

  /** The output of a role that is not on the wire yet, whether its pump has it
      or has not been spawned. */
  function Unwritten(s: Session, role: Role): seq<byte> {
    if role in s.pumps then s.pumps[role].held + s.pumps[role].rest else FileOf(s.cfg, role).GetOr([])
  }

  predicate IsOutput(role: Role) { role == Stdout || role == Stderr }

  // ---------------------------------------------------------------------
  // Nothing left, nothing written
  // ---------------------------------------------------------------------

  /** All output of this role, open on stream sid, is on the wire. */
  predicate Dry(s: Session, role: Role, sid: nat) {
    role in s.loop.byRole && s.loop.byRole[role] == sid && Unwritten(s, role) == []
  }

  lemma {:induction false} LoopKeepsDry(s: Session, e: LoopEvent, role: Role, sid: nat)
    requires PumpsInv(s) && Dry(s, role, sid) && IsOutput(role) && LoopEnabled(s, e) && !LoopApply(s, e).loop.reopened
    ensures Dry(LoopApply(s, e), role, sid)
  {
  }

  lemma {:induction false} PumpKeepsDry(s: Session, e: PumpEvent, role: Role, sid: nat)
    requires PumpsInv(s) && Dry(s, role, sid) && IsOutput(role) && PumpEnabled(s, e) && !s.loop.reopened
    ensures Dry(PumpApply(s, e), role, sid)
    ensures e.WriteData? ==> s.pumps[e.role].sid != sid
  {
    if role in s.pumps { assert s.pumps[role].held == [] && s.pumps[role].rest == []; }
  }

  lemma {:induction false} StepKeepsDry(s: Session, e: Event, role: Role, sid: nat)
    requires PumpsInv(s) && Dry(s, role, sid) && IsOutput(role) && Enabled(s, e) && !Apply(s, e).loop.reopened
    ensures Dry(Apply(s, e), role, sid)
  {
    match e
    case OfLoop(le) => LoopKeepsDry(s, le, role, sid);
    case OfPump(pe) => PumpKeepsDry(s, pe, role, sid);
    case _ =>
  }

  /** One step adds frames behind the wire, none of them with bytes of that
      stream. */
  lemma {:induction false} DryStepWrites(s: Session, e: Event, role: Role, sid: nat) returns (more: seq<Frame>)
    requires PumpsInv(s) && Dry(s, role, sid) && IsOutput(role) && Enabled(s, e) && !s.loop.reopened
    ensures Grows(s.wire, more, Apply(s, e).wire, sid)
  {
    match e
    case OfLoop(le) => more := LoopWrites(s, le, sid);
    case OfPump(pe) =>
      PumpKeepsDry(s, pe, role, sid);
      more := if pe.WriteData? then [Data(s.pumps[pe.role].sid, false, s.pumps[pe.role].held)] else [];
    case OfPath(pe) => more := if pe.Write? then NextFrames(s.path) else [];
    case Resolve => more := [];
  }

  lemma {:induction false} LoopWrites(s: Session, e: LoopEvent, sid: nat) returns (more: seq<Frame>)
    requires LoopEnabled(s, e)
    ensures Grows(s.wire, more, LoopApply(s, e).wire, sid)
  {
    more := match e case ClientPing(id) => [Ping(id)] case SendReply => [Reply(s.loop.sid)] case _ => [];
  }

  lemma {:induction false} StaysDry(s: Session, ss: seq<Session>, es: seq<Event>, role: Role, sid: nat, i: nat)
    returns (more: seq<Frame>)
    requires IsPath(s, ss, es) && i <= |es| && Inv(s) && Dry(s, role, sid) && IsOutput(role) && !ss[i].loop.reopened
    ensures Dry(ss[i], role, sid)
    ensures Grows(s.wire, more, ss[i].wire, sid)
  {
    more := [];
    if i > 0 {
      var t, e := ss[i - 1], es[i - 1];
      assert Enabled(t, e);
      ReopenedStays(t, e);
      more := StaysDry(s, ss, es, role, sid, i - 1);
      PathInv(s, ss, es, i - 1);
      StepKeepsDry(t, e, role, sid);
      var next := DryStepWrites(t, e, role, sid);
      GrowsOn(s.wire, more, t.wire, next, ss[i].wire, sid);
      more := more + next;
    }
  }

  lemma {:induction false} ReopenedStays(s: Session, e: Event)
    requires Enabled(s, e)
    ensures s.loop.reopened ==> Apply(s, e).loop.reopened
  {
  }

  lemma NothingIsLate(before: seq<Frame>, more: seq<Frame>, sid: nat)
    requires AllOpen(before) && forall f <- more :: !Carries(f, sid)
    ensures !LateByte(before + more, sid)
  {
    var wire := before + more;
    forall i, j | 0 <= i < j < |wire| && Ends(wire[i], sid)
      ensures !Carries(wire[j], sid)
    {
      assert i < |before| ==> Open(before[i]);
      assert wire[j] == more[j - |before|];
    }
  }

  // ---------------------------------------------------------------------
  // Something left, and it gets out
  // ---------------------------------------------------------------------

  /** A role that is open and has a file, but no pump, is the one the read loop
      is busy with. */
  predicate PendingOk(s: Session) {
    forall r <- s.loop.byRole :: FileOf(s.cfg, r).Some? && r !in s.pumps ==>
      (s.loop.pc.Notifying? || s.loop.pc.Spawning?) && s.loop.role == r
  }

  lemma {:induction false} LoopKeepsPending(s: Session, e: LoopEvent)
    requires PendingOk(s) && LoopEnabled(s, e)
    ensures PendingOk(LoopApply(s, e))
  {
  }

  lemma {:induction false} StepKeepsPending(s: Session, e: Event)
    requires PendingOk(s) && Enabled(s, e)
    ensures PendingOk(Apply(s, e))
  {
    match e
    case OfLoop(le) => LoopKeepsPending(s, le);
    case OfPump(pe) => assert PumpApply(s, pe).pumps.Keys == s.pumps.Keys;
    case OfPath(pe) => assert PathApply(s, pe).pumps == s.pumps;
    case Resolve =>
  }

  lemma {:induction false} PendingAlongRun(ss: seq<Session>, es: seq<Event>, i: nat)
    requires IsRun(ss, es) && i < |ss|
    ensures PendingOk(ss[i])
  {
    if i > 0 {
      PendingAlongRun(ss, es, i - 1);
      assert Enabled(ss[i - 1], es[i - 1]);
      StepKeepsPending(ss[i - 1], es[i - 1]);
    }
  }

  lemma {:induction false} Onward(from: Session, ss: seq<Session>, es: seq<Event>, e: Event)
    returns (ss': seq<Session>, es': seq<Event>)
    requires IsPath(from, ss, es) && Enabled(ss[|es|], e)
    ensures IsPath(from, ss', es') && ss'[|es'|] == Apply(ss[|es|], e)
  {
    ss', es' := ss + [Apply(ss[|es|], e)], es + [e];
  }

  /** The session with its endings written. */
  function Ended(s: Session): Session
    requires s.path.pc.Snapshotting?
  {
    var m := s.loop.byRole;
    var p := s.path.(pc := Teardown, ids := Ids(Lookup(m, Stdout), Lookup(m, Stderr), Lookup(m, Error)), mark := |s.wire|);
    s.(path := p, wire := s.wire + Ending(p))
  }

  /** The session about to write one of its endings, `done` being written. */
  function Writing(s: Session, pc: PathPc, done: seq<Frame>): Session
    requires s.path.pc.Snapshotting?
  {
    Ended(s).(path := Ended(s).path.(pc := pc), wire := s.wire + done)
  }

  lemma {:induction false} EndingIsDue(s: Session) returns (ss: seq<Session>, es: seq<Event>)
    requires s.path.pc.Snapshotting?
    ensures IsPath(s, ss, es) && ss[|es|] == Writing(s, FinOut, [])
  {
    ss, es := Onward(s, [s], [], OfPath(Snapshot));
    ss, es := Onward(s, ss, es, OfPath(Lock));
    assert s.wire + [] == s.wire;
  }

  lemma WriteOne(s: Session, pc: PathPc, done: seq<Frame>)
    requires s.path.pc.Snapshotting? && (pc.FinOut? || pc.FinErr? || pc.SendStatus?)
    ensures var w, p := Writing(s, pc, done), Ended(s).path;
      && Enabled(w, OfPath(Write))
      && Apply(w, OfPath(Write)) ==
           if pc.FinOut? then Writing(s, FinErr, done + EndOut(p))
           else if pc.FinErr? then Writing(s, SendStatus, done + EndErr(p))
           else Writing(s, Unlocking, done + EndError(p))
  {
    var p := Ended(s).path;
    assert s.wire + (done + EndOut(p)) == s.wire + done + EndOut(p);
    assert s.wire + (done + EndErr(p)) == s.wire + done + EndErr(p);
    assert s.wire + (done + EndError(p)) == s.wire + done + EndError(p);
  }

  lemma {:induction false} EndingGoesOut(s: Session) returns (ss: seq<Session>, es: seq<Event>)
    requires s.path.pc.Snapshotting?
    ensures IsPath(s, ss, es) && ss[|es|] == Ended(s)
  {
    var p := Ended(s).path;
    ss, es := EndingIsDue(s);
    WriteOne(s, FinOut, []);
    ss, es := Onward(s, ss, es, OfPath(Write));
    WriteOne(s, FinErr, [] + EndOut(p));
    ss, es := Onward(s, ss, es, OfPath(Write));
    WriteOne(s, SendStatus, [] + EndOut(p) + EndErr(p));
    ss, es := Onward(s, ss, es, OfPath(Write));
    assert [] + EndOut(p) + EndErr(p) + EndError(p) == Ending(p);
    ss, es := Onward(s, ss, es, OfPath(Unlock));
  }

  lemma {:induction false} EndsThere(s: Session, role: Role) returns (k: nat)
    requires s.path.pc.Snapshotting? && IsOutput(role) && role in s.loop.byRole
    ensures k < |Ended(s).wire| && Ends(Ended(s).wire[k], s.loop.byRole[role])
  {
    k := |s.wire| + if role == Stdout then 0 else |EndOut(Ended(s).path)|;
  }

  /** The pump of the role, spawned if it was not. */
  lemma {:induction false} PumpIsThere(from: Session, ss: seq<Session>, es: seq<Event>, role: Role)
    returns (ss': seq<Session>, es': seq<Event>)
    requires IsPath(from, ss, es)
    requires var s := ss[|es|];
      && !s.path.pc.Gone? && PendingOk(s) && role in s.loop.byRole && Unwritten(s, role) != []
      && (s.loop.pc.Notifying? || s.loop.pc.Spawning? ==> s.loop.role in s.loop.byRole && s.loop.byRole[s.loop.role] == s.loop.sid)
      && (role in s.pumps ==> s.pumps[role].sid == s.loop.byRole[role] && !s.pumps[role].done)
    ensures IsPath(from, ss', es')
    ensures var s, s' := ss[|es|], ss'[|es'|];
      && s'.wire == s.wire && s'.path == s.path && s'.loop.reopened == s.loop.reopened && role in s'.pumps
      && s'.pumps[role].sid == s.loop.byRole[role] && !s'.pumps[role].done && Unwritten(s', role) == Unwritten(s, role)
  {
    ss', es' := ss, es;
    if role !in ss[|es|].pumps {
      if ss[|es|].loop.pc.Notifying? { ss', es' := Onward(from, ss', es', OfLoop(Notify)); }
      ss', es' := Onward(from, ss', es', OfLoop(LoopEvent.Spawn));
      assert [] + Unwritten(ss[|es|], role) == Unwritten(ss[|es|], role);
    }
  }

  /** And it writes what it has. */
  lemma {:induction false} PumpGetsThrough(from: Session, ss: seq<Session>, es: seq<Event>, role: Role)
    returns (ss': seq<Session>, es': seq<Event>, f: Frame)
    requires IsPath(from, ss, es)
    requires var s := ss[|es|];
      && !s.path.pc.Gone? && !WriterHeld(s) && role in s.pumps && !s.pumps[role].done && Unwritten(s, role) != []
    ensures IsPath(from, ss', es') && ss'[|es'|].loop == ss[|es|].loop
    ensures ss'[|es'|].wire == ss[|es|].wire + [f] && Carries(f, ss[|es|].pumps[role].sid)
  {
    ss', es' := ss, es;
    var p := ss[|es|].pumps[role];
    if p.held == [] {
      ss', es' := Onward(from, ss', es', OfPump(ReadFile(role, if |p.rest| < 8192 then |p.rest| else 8192)));
    }
    f := Data(p.sid, false, ss'[|es'|].pumps[role].held);
    ss', es' := Onward(from, ss', es', OfPump(WriteData(role)));
  }

  lemma {:induction false} ByteGetsOut(s: Session, role: Role) returns (ss: seq<Session>, es: seq<Event>)
    requires Inv(s) && PendingOk(s) && s.path.pc.Snapshotting? && !s.loop.reopened
    requires IsOutput(role) && role in s.loop.byRole && Unwritten(s, role) != []
    ensures IsPath(s, ss, es) && !ss[|es|].loop.reopened && LateByte(ss[|es|].wire, s.loop.byRole[role])
  {
    ss, es := EndingGoesOut(s);
    var k := EndsThere(s, role);
    if role in s.pumps { assert PumpOk(s.cfg, role, s.pumps[role]); }
    ss, es := PumpIsThere(s, ss, es, role);
    var f;
    ss, es, f := PumpGetsThrough(s, ss, es, role);
    var wire := ss[|es|].wire;
    assert wire == Ended(s).wire + [f];
    assert Ends(wire[k], s.loop.byRole[role]) && Carries(wire[|wire| - 1], s.loop.byRole[role]);
  }

  // ---------------------------------------------------------------------
  // Exactly then
  // ---------------------------------------------------------------------

  /** When the completion path reads the stream ids for its FINs: whatever the
      tasks and the client do from there on, short of opening a role or an id
      twice, no byte follows the FIN on the stream of an output role if and
      only if all of that role's output is on the wire. */
  lemma {:induction false} NoLateBytesExactly(run: seq<Session>, steps: seq<Event>, role: Role)
    requires IsRun(run, steps) && run[|steps|].path.pc.Snapshotting? && !run[|steps|].loop.reopened
    requires IsOutput(role) && role in run[|steps|].loop.byRole
    ensures Unwritten(run[|steps|], role) == [] <==>
      forall ss: seq<Session>, es: seq<Event> | IsPath(run[|steps|], ss, es) && !ss[|es|].loop.reopened ::
        !LateByte(ss[|es|].wire, run[|steps|].loop.byRole[role])
  {
    var s := run[|steps|];
    var sid := s.loop.byRole[role];
    InvRun(run, steps, |steps|);
    PendingAlongRun(run, steps, |steps|);
    if Unwritten(s, role) == [] {
      forall ss: seq<Session>, es: seq<Event> | IsPath(s, ss, es) && !ss[|es|].loop.reopened
        ensures !LateByte(ss[|es|].wire, sid)
      {
        var more := StaysDry(s, ss, es, role, sid, |es|);
        NothingIsLate(s.wire, more, sid);
      }
    } else {
      var ss, es := ByteGetsOut(s, role);
    }
  }

  // ---------------------------------------------------------------------
  // What it takes
  // ---------------------------------------------------------------------

  /** Past the gate the drain covers every output file, and past the drain all
      its pumps are done. */
  predicate GateOk(s: Session) {
    && (PhaseOf(s) >= 3 ==> Covers(s.cfg, s.tasks.taken.GetOr(s.tasks.registered)))
    && (PhaseOf(s) >= 5 ==> Drained(s))
    && (s.tasks.taken.Some? ==> PhaseOf(s) >= 3)
  }

  /** The session gave up waiting for its pumps. */
  predicate GivesUpGate(s: Session, e: Event) { e == OfPath(Backstop) && InGate(s.path) }

  lemma {:induction false} LoopKeepsGate(s: Session, e: LoopEvent)
    requires GateOk(s) && PumpsInv(s) && LoopEnabled(s, e)
    ensures GateOk(LoopApply(s, e))
  {
  }

  lemma {:induction false} PumpKeepsGate(s: Session, e: PumpEvent)
    requires GateOk(s) && PumpEnabled(s, e)
    ensures GateOk(PumpApply(s, e))
  {
  }

  lemma {:induction false} PathKeepsGate(s: Session, e: PathEvent)
    requires GateOk(s) && PathEnabled(s, e) && !NextPath(s, e).leftEarly && !(e.Backstop? && InGate(s.path))
    requires e.Check? && s.path.pc.GateCheck? && GateMet(s) ==> Covers(s.cfg, s.tasks.registered)
    ensures GateOk(PathApply(s, e))
  {
  }

  lemma {:induction false} StepKeepsGate(s: Session, e: Event)
    requires GateOk(s) && Inv(s) && Enabled(s, e) && (s.cfg.tty ==> s.cfg.err.None?)
    requires !Apply(s, e).path.leftEarly && !GivesUpGate(s, e)
    ensures GateOk(Apply(s, e))
  {
    match e
    case OfLoop(le) => LoopKeepsGate(s, le);
    case OfPump(pe) => PumpKeepsGate(s, pe);
    case OfPath(pe) =>
      if pe.Check? && s.path.pc.GateCheck? && GateMet(s) { GateCovers(s); }
      PathKeepsGate(s, pe);
    case Resolve =>
  }

  lemma {:induction false} GateAlongRun(ss: seq<Session>, es: seq<Event>, i: nat)
    requires IsRun(ss, es) && i < |ss| && !ss[i].path.leftEarly && (ss[i].cfg.tty ==> ss[i].cfg.err.None?)
    requires forall k {:trigger es[k]} :: 0 <= k < i ==> !GivesUpGate(ss[k], es[k])
    ensures GateOk(ss[i])
  {
    if i > 0 {
      assert Enabled(ss[i - 1], es[i - 1]);
      GateAlongRun(ss, es, i - 1);
      InvRun(ss, es, i - 1);
      StepKeepsGate(ss[i - 1], es[i - 1]);
    }
  }

  lemma {:induction false} GateLeavesNothing(s: Session, role: Role)
    requires GateOk(s) && PumpsInv(s) && PhaseOf(s) >= 5
    ensures Unwritten(s, role) == []
  {
    if role in s.pumps { assert PumpOk(s.cfg, role, s.pumps[role]); }
  }

  /** Output can only be left at that point by a session that gave up waiting
      for its pumps, ended as an attach by detach, or has a stderr file beside
      its tty. Giving up on the streams that the client has still to open is
      not enough. */
  lemma {:induction false} LeftoverNeedsWayOut(run: seq<Session>, steps: seq<Event>, role: Role)
    requires IsRun(run, steps) && run[|steps|].path.pc.Snapshotting? && Unwritten(run[|steps|], role) != []
    ensures var s := run[|steps|];
      || s.path.leftEarly || (s.cfg.tty && s.cfg.err.Some?)
      || exists k {:trigger steps[k]} :: 0 <= k < |steps| && GivesUpGate(run[k], steps[k])
  {
    var s := run[|steps|];
    if !s.path.leftEarly && (s.cfg.tty ==> s.cfg.err.None?)
       && (forall k {:trigger steps[k]} :: 0 <= k < |steps| ==> !GivesUpGate(run[k], steps[k])) {
      GateAlongRun(run, steps, |steps|);
      InvRun(run, steps, |steps|);
      GateLeavesNothing(s, role);
    }
  }

  // ---------------------------------------------------------------------
  // Whatever the client does
  // ---------------------------------------------------------------------

  /** The read loop is bound to give this role a stream other than sid, or
      reads no more. */
  predicate Elsewhere(l: Loop, role: Role, sid: nat) {
    l.pc.Ended? || (Opening(l.pc) && l.role == role && l.sid != sid)
  }

  predicate Opening(pc: LoopPc) { pc.Replying? || pc.Inserting? || pc.Notifying? || pc.Spawning? }

  predicate Unpumped(s: Session, role: Role) {
    IsOutput(role) && role !in s.pumps && FileOf(s.cfg, role).GetOr([]) != []
  }

  /** No output can come to this stream any more: not from the pumps that write
      to it, and not from a file whose role may still be opened on it. */
  predicate DriedUp(s: Session, sid: nat) {
    && (forall r <- s.pumps :: s.pumps[r].sid == sid ==> s.pumps[r].held == [] && s.pumps[r].rest == [])
    && (forall role :: Unpumped(s, role) ==> Elsewhere(s.loop, role, sid))
  }

  lemma {:induction false} LoopKeepsDriedUp(s: Session, e: LoopEvent, sid: nat)
    requires DriedUp(s, sid) && LoopEnabled(s, e)
    requires s.loop.pc.Spawning? ==> s.loop.role !in s.pumps && FileOf(s.cfg, s.loop.role).Some?
    ensures DriedUp(LoopApply(s, e), sid)
  {
    var s' := LoopApply(s, e);
    forall role | Unpumped(s', role)
      ensures Elsewhere(s'.loop, role, sid)
    {
      assert Unpumped(s, role);
    }
    if e.Spawn? { assert Unpumped(s, s.loop.role) || s'.pumps[s.loop.role].rest == []; }
  }

  lemma {:induction false} StepKeepsDriedUp(s: Session, e: Event, sid: nat)
    requires Inv(s) && DriedUp(s, sid) && Enabled(s, e)
    ensures DriedUp(Apply(s, e), sid)
  {
    var s' := Apply(s, e);
    if e.OfLoop? {
      LoopKeepsDriedUp(s, e.loop, sid);
    } else {
      assert s'.pumps.Keys == s.pumps.Keys && s'.loop == s.loop;
      forall role | Unpumped(s', role)
        ensures Elsewhere(s'.loop, role, sid)
      {
        assert Unpumped(s, role);
      }
    }
  }

  lemma {:induction false} DriedUpStepWrites(s: Session, e: Event, sid: nat) returns (more: seq<Frame>)
    requires DriedUp(s, sid) && Enabled(s, e)
    ensures Grows(s.wire, more, Apply(s, e).wire, sid)
  {
    match e
    case OfLoop(le) => more := LoopWrites(s, le, sid);
    case OfPump(pe) => more := if pe.WriteData? then [Data(s.pumps[pe.role].sid, false, s.pumps[pe.role].held)] else [];
    case OfPath(pe) => more := if pe.Write? then NextFrames(s.path) else [];
    case Resolve => more := [];
  }

  lemma {:induction false} StaysDriedUp(s: Session, ss: seq<Session>, es: seq<Event>, sid: nat, i: nat)
    returns (more: seq<Frame>)
    requires IsPath(s, ss, es) && i <= |es| && Inv(s) && DriedUp(s, sid)
    ensures DriedUp(ss[i], sid)
    ensures Grows(s.wire, more, ss[i].wire, sid)
  {
    more := [];
    if i > 0 {
      more := StaysDriedUp(s, ss, es, sid, i - 1);
      var t, e := ss[i - 1], es[i - 1];
      assert Enabled(t, e);
      PathInv(s, ss, es, i - 1);
      StepKeepsDriedUp(t, e, sid);
      var next := DriedUpStepWrites(t, e, sid);
      GrowsOn(s.wire, more, t.wire, next, ss[i].wire, sid);
      more := more + next;
    }
  }

  /** The read loop finishes with the stream it is at, another than this
      role's, and reads on. */
  lemma {:induction false} LoopComesBack(from: Session, ss: seq<Session>, es: seq<Event>, role: Role)
    returns (ss': seq<Session>, es': seq<Event>)
    requires IsPath(from, ss, es)
    requires Unpumped(ss[|es|], role) && ss[|es|].path.pc.Teardown? && !ss[|es|].loop.pc.Ended?
    requires !Opening(ss[|es|].loop.pc) || ss[|es|].loop.role != role
    ensures IsPath(from, ss', es') && ss[|es|].wire <= ss'[|es'|].wire
    ensures Unpumped(ss'[|es'|], role) && ss'[|es'|].path.pc.Teardown? && ss'[|es'|].loop.pc.Reading?
    decreases Distance(ss[|es|].loop.pc)
  {
    ss', es' := ss, es;
    var l := ss[|es|].loop;
    if !l.pc.Reading? {
      ss', es' := Onward(from, ss, es, OfLoop(NextOf(l.pc)));
      ss', es' := LoopComesBack(from, ss', es', role);
    }
  }

  function Distance(pc: LoopPc): nat {
    match pc
    case Replying => 6
    case Inserting => 5
    case Notifying => 4
    case Spawning => 3
    case Pushing => 2
    case Renotifying => 1
    case _ => 0
  }

  function NextOf(pc: LoopPc): LoopEvent {
    match pc
    case Inserting => Insert
    case Notifying => Notify
    case Spawning => LoopEvent.Spawn
    case Pushing => Push
    case Renotifying => Renotify
    case _ => SendReply
  }

  /** A role being opened on sid gets its pump there. */
  lemma {:induction false} OpeningComesThrough(from: Session, ss: seq<Session>, es: seq<Event>, role: Role, sid: nat)
    returns (ss': seq<Session>, es': seq<Event>)
    requires IsPath(from, ss, es)
    requires Unpumped(ss[|es|], role) && ss[|es|].path.pc.Teardown?
    requires Opening(ss[|es|].loop.pc) && ss[|es|].loop.role == role && ss[|es|].loop.sid == sid
    ensures IsPath(from, ss', es') && ss[|es|].wire <= ss'[|es'|].wire && ss'[|es'|].path.pc.Teardown?
    ensures role in ss'[|es'|].pumps && ss'[|es'|].pumps[role] == Pump(sid, [], [], FileOf(ss[|es|].cfg, role).GetOr([]), false)
    decreases Distance(ss[|es|].loop.pc)
  {
    ss', es' := Onward(from, ss, es, OfLoop(NextOf(ss[|es|].loop.pc)));
    if !ss[|es|].loop.pc.Spawning? { ss', es' := OpeningComesThrough(from, ss', es', role, sid); }
  }

  /** A pump with output for sid, there already or made by a client that opens
      its role on sid. */
  lemma {:induction false} WetPump(from: Session, ss: seq<Session>, es: seq<Event>, sid: nat)
    returns (ss': seq<Session>, es': seq<Event>, role: Role)
    requires IsPath(from, ss, es) && Inv(ss[|es|]) && ss[|es|].path.pc.Teardown? && !DriedUp(ss[|es|], sid)
    ensures IsPath(from, ss', es') && ss[|es|].wire <= ss'[|es'|].wire && ss'[|es'|].path.pc.Teardown?
    ensures role in ss'[|es'|].pumps && ss'[|es'|].pumps[role].sid == sid
    ensures !ss'[|es'|].pumps[role].done && Unwritten(ss'[|es'|], role) != []
  {
    var s := ss[|es|];
    ss', es' := ss, es;
    if r :| r in s.pumps && s.pumps[r].sid == sid && !(s.pumps[r].held == [] && s.pumps[r].rest == []) {
      role := r;
      assert PumpOk(s.cfg, role, s.pumps[role]);
    } else {
      role :| Unpumped(s, role) && !Elsewhere(s.loop, role, sid);
      if !Opening(s.loop.pc) || s.loop.role != role {
        ss', es' := LoopComesBack(from, ss', es', role);
        ss', es' := Onward(from, ss', es', OfLoop(ClientSyn(sid, role)));
      }
      ss', es' := OpeningComesThrough(from, ss', es', role, sid);
    }
  }

  lemma {:induction false} WetByteGetsOut(s: Session, role: Role) returns (ss: seq<Session>, es: seq<Event>)
    requires s.path.pc.Snapshotting? && Inv(Ended(s))
    requires IsOutput(role) && role in s.loop.byRole && !DriedUp(s, s.loop.byRole[role])
    ensures IsPath(s, ss, es) && LateByte(ss[|es|].wire, s.loop.byRole[role])
  {
    var sid := s.loop.byRole[role];
    ss, es := EndingGoesOut(s);
    var k := EndsThere(s, role);
    var r, f;
    ss, es, r := WetPump(s, ss, es, sid);
    ss, es, f := PumpGetsThrough(s, ss, es, r);
    var wire := ss[|es|].wire;
    assert Ended(s).wire <= wire[..|wire| - 1] && wire[|wire| - 1] == f;
    assert Ends(wire[k], sid) && Carries(wire[|wire| - 1], sid);
  }

  /** The same for every continuation, with clients that open roles and ids
      again: no byte follows the FIN on an output stream if and only if no pump
      and no file could still put one there. */
  lemma {:induction false} NoLateBytesFromAnyClient(run: seq<Session>, steps: seq<Event>, role: Role)
    requires IsRun(run, steps) && run[|steps|].path.pc.Snapshotting?
    requires IsOutput(role) && role in run[|steps|].loop.byRole
    ensures DriedUp(run[|steps|], run[|steps|].loop.byRole[role]) <==>
      forall ss: seq<Session>, es: seq<Event> | IsPath(run[|steps|], ss, es) ::
        !LateByte(ss[|es|].wire, run[|steps|].loop.byRole[role])
  {
    var s := run[|steps|];
    var sid := s.loop.byRole[role];
    InvRun(run, steps, |steps|);
    if DriedUp(s, sid) {
      forall ss: seq<Session>, es: seq<Event> | IsPath(s, ss, es)
        ensures !LateByte(ss[|es|].wire, sid)
      {
        var more := StaysDriedUp(s, ss, es, sid, |es|);
        NothingIsLate(s.wire, more, sid);
      }
    } else {
      var ended, steps' := EndingGoesOut(s);
      PathInv(s, ended, steps', |steps'|);
      var ss, es := WetByteGetsOut(s, role);
    }
  }

  /** A session that left its normal path in none of those ways leaves nothing
      that could come late, whatever its client does afterwards. */
  lemma {:induction false} CleanSessionDriesUp(run: seq<Session>, steps: seq<Event>, sid: nat)
    requires IsRun(run, steps) && run[|steps|].path.pc.Snapshotting? && Clean(run[|steps|])
    ensures DriedUp(run[|steps|], sid)
  {
    var s := run[|steps|];
    InvRun(run, steps, |steps|);
    forall r | r in s.pumps
      ensures s.pumps[r].held == [] && s.pumps[r].rest == []
    {
      NothingLeftToWrite(s, r);
    }
  }

  // ---------------------------------------------------------------------
  // A session that does it
  // ---------------------------------------------------------------------

  lemma {:induction false} Go(ss: seq<Session>, es: seq<Event>, e: Event) returns (ss': seq<Session>, es': seq<Event>)
    requires IsRun(ss, es) && Enabled(ss[|es|], e)
    ensures IsRun(ss', es') && ss'[0] == ss[0] && ss'[|es'|] == Apply(ss[|es|], e)
  {
    ss', es' := ss + [Apply(ss[|es|], e)], es + [e];
  }

  const BYTE_LEFT := Pump(1, [], [], [7], false)
  const ATTACHED := Config(Attach, true, false, Some([7]), None, 0)

  /** The attach of the example once its stdout stream is open and its client has detached. */
  function Detaching(): Session {
    Session(ATTACHED, Loop(Reading, 1, Stdout, map[Stdout := 1], {1}, 2, true, false),
            map[Stdout := BYTE_LEFT], Tasks([Stdout], None), false,
            Path(BarrierTicket, 0, false, 0, Ids(None, None, None), 0, false, false), [Reply(1)])
  }

  lemma {:induction false} ClientOpensStdout() returns (ss: seq<Session>, es: seq<Event>)
    ensures IsRun(ss, es) && ss[0] == Start(ATTACHED)
    ensures ss[|es|].loop == Loop(Notifying, 1, Stdout, map[Stdout := 1], {1}, 0, false, false)
    ensures ss[|es|] == Start(ATTACHED).(loop := ss[|es|].loop, path := Detaching().path, wire := [Reply(1)])
  {
    ss, es := [Start(ATTACHED)], [];
    ss, es := Go(ss, es, OfPath(Arm));
    ss, es := Go(ss, es, OfLoop(ClientSyn(1, Stdout)));
    ss, es := Go(ss, es, OfLoop(SendReply));
    ss, es := Go(ss, es, OfLoop(Insert));
    assert map[][Stdout := 1] == map[Stdout := 1];
  }

  lemma {:induction false} ClientDetaches() returns (ss: seq<Session>, es: seq<Event>)
    ensures IsRun(ss, es) && ss[0] == Start(ATTACHED) && ss[|es|] == Detaching()
  {
    ss, es := ClientOpensStdout();
    ss, es := Go(ss, es, OfLoop(Notify));
    ss, es := Go(ss, es, OfLoop(LoopEvent.Spawn));
    assert ss[|es|].pumps == map[Stdout := BYTE_LEFT];
    ss, es := Go(ss, es, OfLoop(Push));
    ss, es := Go(ss, es, OfLoop(Renotify));
    ss, es := Go(ss, es, OfLoop(ClientFin));
  }

  lemma {:induction false} AttachIsLeaving() returns (ss: seq<Session>, es: seq<Event>)
    ensures IsRun(ss, es) && ss[0] == Start(ATTACHED)
    ensures ss[|es|] == Detaching().(path := Detaching().path.(pc := Snapshotting, leftEarly := true))
  {
    ss, es := ClientDetaches();
    ss, es := Go(ss, es, OfPath(PathEvent.Detach));
    ss, es := Go(ss, es, OfPath(ReadExit));
  }

  lemma {:induction false} EndingIsLocked() returns (ss: seq<Session>, es: seq<Event>)
    ensures IsRun(ss, es) && ss[0] == Start(ATTACHED)
    ensures ss[|es|] == Detaching().(path := Path(FinOut, 0, false, 0, Ids(Some(1), None, None), 1, false, true))
  {
    ss, es := AttachIsLeaving();
    ss, es := Go(ss, es, OfPath(Snapshot));
    ss, es := Go(ss, es, OfPath(Lock));
  }

  lemma {:induction false} EndingIsWritten() returns (ss: seq<Session>, es: seq<Event>)
    ensures IsRun(ss, es) && ss[0] == Start(ATTACHED)
    ensures ss[|es|].path.pc.Teardown? && ss[|es|].pumps == map[Stdout := BYTE_LEFT]
    ensures ss[|es|].wire == [Reply(1), Data(1, true, [])]
  {
    ss, es := EndingIsLocked();
    ss, es := Go(ss, es, OfPath(Write));
    ss, es := Go(ss, es, OfPath(Write));
    ss, es := Go(ss, es, OfPath(Write));
    ss, es := Go(ss, es, OfPath(Unlock));
  }

  /** An attach can put DATA behind the FIN of the same stream: the client
      opens stdout and detaches while one byte is still unread. */
  lemma {:induction false} AttachCanWriteAfterFin() returns (ss: seq<Session>, es: seq<Event>)
    ensures IsRun(ss, es) && ss[0].cfg.verb == Attach
    ensures ss[|es|].wire == [Reply(1), Data(1, true, []), Data(1, false, [7])]
  {
    ss, es := EndingIsWritten();
    var bytes: seq<byte> := [7];
    assert bytes[..1] == bytes && bytes[1..] == [];
    ss, es := Go(ss, es, OfPump(ReadFile(Stdout, 1)));
    assert ss[|es|].pumps == map[Stdout := Pump(1, [], [7], [], false)];
    ss, es := Go(ss, es, OfPump(WriteData(Stdout)));
  }
}

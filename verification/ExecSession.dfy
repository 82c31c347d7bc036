/** The concurrent driver of one SPDY exec or attach session: the read loop,
    the two output pumps, the reaper and the completion path, interleaved
    freely. The completion path must put every output byte on the wire before
    the FINs and the exit status. */
module ExecSession {

  import opened Options
  import opened Bytes

  datatype Verb = Exec | Attach
  datatype Role = Stdin | Stdout | Stderr | Error | Resize | Other

  /** `out` and `err` are everything the session's output files will ever
      yield, if the session has them; `code` is what its waiter returns. */
  datatype Config = Config(verb: Verb, tty: bool, stdin: bool, out: Option<seq<byte>>, err: Option<seq<byte>>, code: int)

  /** Frames the server sends. `Status` is the final DATA frame with FLAG_FIN
      on the error stream, carrying the exit code as JSON. */
  datatype Frame =
    | Reply(sid: nat)
    | Ping(id: nat)
    | Data(sid: nat, fin: bool, payload: seq<byte>)
    | Status(sid: nat, code: int)

  /** `sent` is what the pump already put on the wire. */
  datatype Pump = Pump(sid: nat, sent: seq<byte>, held: seq<byte>, rest: seq<byte>, done: bool)

  datatype LoopPc = Reading | Replying | Inserting | Notifying | Spawning | Pushing | Renotifying | Ended

  /** The read loop: where it stands in its SYN_STREAM arm, for which stream,
      and the maps it fills. `notifies` counts its `role_added` wake-ups and
      `used` the stream ids the client has opened; `detach` is the latched
      close signal; `reopened` records that the client opened a role or an id
      twice. */
  datatype Loop = Loop(
    pc: LoopPc, sid: nat, role: Role,
    byRole: map<Role, nat>, used: set<nat>, notifies: nat, detach: bool, reopened: bool)

  /** The shared task list: `taken` is what the drain took out of it. */
  datatype Tasks = Tasks(registered: seq<Role>, taken: Option<seq<Role>>)

  datatype PathPc =
    | Arming
    | BarrierTicket | BarrierCheck | BarrierSleep
    | GateTicket | GateCheck | GateSleep
    | Selecting | Draining | Exiting | Snapshotting | Locking
    | FinOut | FinErr | SendStatus | Unlocking
    | Teardown | Gone

  /** The stream ids the completion path reads once, before it writes. */
  datatype Ids = Ids(out: Option<nat>, err: Option<nat>, error: Option<nat>)

  /** The completion path. A waiter whose `ticket` is older than the notify
      count has been woken; `mark` is the length of the wire when it took the
      writer lock. `backstop` and `leftEarly` record a timeout and an attach
      that ended by detach. */
  datatype Path = Path(
    pc: PathPc, ticket: nat, reaped: bool, exit: int, ids: Ids, mark: nat, backstop: bool, leftEarly: bool)

  datatype Session = Session(
    cfg: Config, loop: Loop, pumps: map<Role, Pump>, tasks: Tasks, resolved: bool, path: Path, wire: seq<Frame>)

  function Start(cfg: Config): Session {
    Session(cfg, Loop(Reading, 0, Other, map[], {}, 0, false, false), map[], Tasks([], None), false,
            Path(Arming, 0, false, 0, Ids(None, None, None), 0, false, false), [])
  }

  // ---------------------------------------------------------------------
  // What the completion path waits for
  // ---------------------------------------------------------------------

  function Expected(cfg: Config): set<Role> {
    {Error, Stdout} + (if cfg.stdin then {Stdin} else {}) + (if !cfg.tty then {Stderr} else {})
  }

  predicate BarrierMet(s: Session) { Expected(s.cfg) <= s.loop.byRole.Keys }

  function ExpectedPumps(cfg: Config): nat {
    (if cfg.out.Some? then 1 else 0) + (if !cfg.tty && cfg.err.Some? then 1 else 0)
  }

  predicate GateMet(s: Session) { |s.tasks.registered| >= ExpectedPumps(s.cfg) }

  /** The output file a role would pump, if the session has it. */
  function FileOf(cfg: Config, role: Role): Option<seq<byte>> {
    match role
    case Stdout => cfg.out
    case Stderr => cfg.err
    case _ => None
  }

  predicate Drained(s: Session) {
    s.tasks.taken.Some? && forall r <- s.tasks.taken.value :: r in s.pumps ==> s.pumps[r].done
  }

  function Lookup(m: map<Role, nat>, r: Role): Option<nat> { if r in m then Some(m[r]) else None }

  /** The completion path holds the writer lock over all its frames. */
  predicate WriterHeld(s: Session) {
    s.path.pc.FinOut? || s.path.pc.FinErr? || s.path.pc.SendStatus? || s.path.pc.Unlocking?
  }

  predicate InBarrier(p: Path) { p.pc.BarrierTicket? || p.pc.BarrierCheck? || p.pc.BarrierSleep? }
  predicate InGate(p: Path) { p.pc.GateTicket? || p.pc.GateCheck? || p.pc.GateSleep? }

  // ---------------------------------------------------------------------
  // The read loop
  // ---------------------------------------------------------------------

  /** What the client sends, and the loop's own steps while it handles a SYN_STREAM. */
  datatype LoopEvent =
    | ClientSyn(sid: nat, role: Role)
    | ClientFin
    | ClientPing(id: nat)
    | ClientClose
    | SendReply | Insert | Notify | Spawn | Push | Renotify

  predicate LoopEnabled(s: Session, e: LoopEvent) {
    match e
    case ClientPing(_) => s.loop.pc.Reading? && !WriterHeld(s)
    case SendReply => s.loop.pc.Replying? && !WriterHeld(s)
    case Insert => s.loop.pc.Inserting?
    case Notify => s.loop.pc.Notifying?
    case Spawn => s.loop.pc.Spawning?
    case Push => s.loop.pc.Pushing?
    case Renotify => s.loop.pc.Renotifying?
    case _ => s.loop.pc.Reading?
  }

  function LoopApply(s: Session, e: LoopEvent): Session
    requires LoopEnabled(s, e)
  {
    var l := s.loop;
    match e
    case ClientSyn(sid, role) => s.(loop := l.(pc := Replying, sid := sid, role := role))
    case ClientFin => s.(loop := l.(detach := l.detach || (s.cfg.verb == Attach && !s.path.pc.Arming?)))
    case ClientPing(id) => s.(wire := s.wire + [Ping(id)])
    case ClientClose => s.(loop := l.(pc := Ended, detach := l.detach || !s.path.pc.Arming?))
    case SendReply => s.(wire := s.wire + [Reply(l.sid)], loop := l.(pc := Inserting))
    case Insert =>
      s.(loop := l.(byRole := l.byRole[l.role := l.sid], used := l.used + {l.sid}, pc := Notifying,
                    reopened := l.reopened || l.sid in l.used || (l.role != Other && l.role in l.byRole)))
    case Notify =>
      s.(loop := l.(notifies := l.notifies + 1,
                    pc := if FileOf(s.cfg, l.role).Some? && l.role !in s.pumps then Spawning else Reading))
    case Spawn =>
      s.(pumps := s.pumps[l.role := Pump(l.sid, [], [], FileOf(s.cfg, l.role).GetOr([]), false)],
         loop := l.(pc := Pushing))
    case Push =>
      s.(tasks := s.tasks.(registered := s.tasks.registered + [l.role]), loop := l.(pc := Renotifying))
    case Renotify => s.(loop := l.(notifies := l.notifies + 1, pc := Reading))
  }

  // ---------------------------------------------------------------------
  // The pumps: read up to 8192 bytes or meet the end of the file (n == 0);
  // write what was read
  // ---------------------------------------------------------------------

  datatype PumpEvent = ReadFile(role: Role, n: nat) | WriteData(role: Role)

  predicate PumpEnabled(s: Session, e: PumpEvent) {
    e.role in s.pumps &&
    var p := s.pumps[e.role];
    match e
    case ReadFile(_, n) => !p.done && p.held == [] && n <= |p.rest| && n <= 8192 && (n == 0 <==> p.rest == [])
    case WriteData(_) => p.held != [] && !WriterHeld(s)
  }

  function PumpApply(s: Session, e: PumpEvent): Session
    requires PumpEnabled(s, e)
  {
    var p := s.pumps[e.role];
    match e
    case ReadFile(role, n) =>
      s.(pumps := s.pumps[role := if n == 0 then p.(done := true) else p.(held := p.rest[..n], rest := p.rest[n..])])
    case WriteData(role) =>
      s.(wire := s.wire + [Data(p.sid, false, p.held)],
         pumps := s.pumps[role := p.(sent := p.sent + p.held, held := [])])
  }

  // ---------------------------------------------------------------------
  // The completion path
  // ---------------------------------------------------------------------

  datatype PathEvent =
    | Arm | Ticket | Check | Wake | Backstop | Detach | Take
    | ReapedFirst | DrainedFirst | DrainRest | ReadExit | Snapshot | Lock | Write | Unlock | Leave

  predicate PathEnabled(s: Session, e: PathEvent) {
    var pc := s.path.pc;
    match e
    case Arm => pc.Arming?
    case Ticket => pc.BarrierTicket? || pc.GateTicket?
    case Check => pc.BarrierCheck? || pc.GateCheck?
    case Wake => (pc.BarrierSleep? || pc.GateSleep?) && s.path.ticket < s.loop.notifies
    case Backstop => InBarrier(s.path) || InGate(s.path)
    case Detach => s.loop.detach && (pc.Selecting? || (s.cfg.verb == Attach && (InBarrier(s.path) || InGate(s.path))))
    case Take => (pc.Selecting? || pc.Draining?) && s.tasks.taken.None?
    case ReapedFirst => pc.Selecting? && s.cfg.verb == Exec && s.resolved
    case DrainedFirst => pc.Selecting? && Drained(s)
    case DrainRest => pc.Draining? && Drained(s)
    case ReadExit => pc.Exiting? && (s.cfg.verb == Exec && !s.path.reaped ==> s.resolved)
    case Snapshot => pc.Snapshotting?
    case Lock => pc.Locking?
    case Write => pc.FinOut? || pc.FinErr? || pc.SendStatus?
    case Unlock => pc.Unlocking?
    case Leave => pc.Teardown?
  }

  function PathApply(s: Session, e: PathEvent): Session
    requires PathEnabled(s, e)
  {
    match e
    case Take => s.(tasks := Tasks([], Some(s.tasks.registered)))
    case Write => s.(wire := s.wire + NextFrames(s.path), path := NextPath(s, e))
    case _ => s.(path := NextPath(s, e))
  }

  function NextPath(s: Session, e: PathEvent): Path
    requires PathEnabled(s, e)
  {
    var p := s.path;
    match e
    case Arm => p.(pc := BarrierTicket)
    case Ticket => p.(ticket := s.loop.notifies, pc := if p.pc.BarrierTicket? then BarrierCheck else GateCheck)
    case Check =>
      if p.pc.BarrierCheck? then p.(pc := if BarrierMet(s) then GateTicket else BarrierSleep)
      else p.(pc := if GateMet(s) then Selecting else GateSleep)
    case Wake => p.(pc := if p.pc.BarrierSleep? then BarrierTicket else GateTicket)
    case Backstop => p.(backstop := true, pc := if InBarrier(p) then GateTicket else Selecting)
    case Detach => if s.cfg.verb == Attach then p.(leftEarly := true, pc := Exiting) else p.(pc := Draining)
    case Take => p
    case ReapedFirst => p.(reaped := true, pc := Draining)
    case DrainedFirst => p.(pc := Exiting)
    case DrainRest => p.(pc := Exiting)
    case ReadExit => p.(pc := Snapshotting, exit := if s.cfg.verb == Attach then 0 else s.cfg.code)
    case Snapshot =>
      var m := s.loop.byRole;
      p.(pc := Locking, ids := Ids(Lookup(m, Stdout), Lookup(m, Stderr), Lookup(m, Error)))
    case Lock => p.(pc := FinOut, mark := |s.wire|)
    case Write => p.(pc := if p.pc.FinOut? then FinErr else if p.pc.FinErr? then SendStatus else Unlocking)
    case Unlock => p.(pc := Teardown)
    case Leave => p.(pc := Gone)
  }

  function EndOut(p: Path): seq<Frame> { if p.ids.out.Some? then [Data(p.ids.out.value, true, [])] else [] }
  function EndErr(p: Path): seq<Frame> { if p.ids.err.Some? then [Data(p.ids.err.value, true, [])] else [] }
  function EndError(p: Path): seq<Frame> { if p.ids.error.Some? then [Status(p.ids.error.value, p.exit)] else [] }

  /** The frames of one write of the completion path. */
  function NextFrames(p: Path): seq<Frame> {
    if p.pc.FinOut? then EndOut(p) else if p.pc.FinErr? then EndErr(p) else EndError(p)
  }

  // ---------------------------------------------------------------------
  // Runs
  // ---------------------------------------------------------------------

  datatype Event = OfLoop(loop: LoopEvent) | OfPump(pump: PumpEvent) | OfPath(path: PathEvent) | Resolve

  /** Everything stops when the driver returns: its guard aborts all tasks. */
  predicate Enabled(s: Session, e: Event) {
    !s.path.pc.Gone? &&
    match e
    case OfLoop(le) => LoopEnabled(s, le)
    case OfPump(pe) => PumpEnabled(s, pe)
    case OfPath(pe) => PathEnabled(s, pe)
    case Resolve => !s.resolved
  }

  function Apply(s: Session, e: Event): Session
    requires Enabled(s, e)
  {
    match e
    case OfLoop(le) => LoopApply(s, le)
    case OfPump(pe) => PumpApply(s, pe)
    case OfPath(pe) => PathApply(s, pe)
    case Resolve => s.(resolved := true)
  }

  ghost predicate IsRun(ss: seq<Session>, es: seq<Event>) {
    && |ss| == |es| + 1
    && ss[0] == Start(ss[0].cfg)
    && forall i {:trigger es[i]} | 0 <= i < |es| :: Enabled(ss[i], es[i]) && ss[i + 1] == Apply(ss[i], es[i])
  }
}

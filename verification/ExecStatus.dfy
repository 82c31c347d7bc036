/** What a client of exec or attach reads off the wire, frame by frame: its
    output, the ends of its streams, the exit status, and an answer to each of
    its own frames. */
module ExecStatus {
  import opened Options
  import opened Bytes
  import opened ExecSession
  import opened ExecSafety

  // ---------------------------------------------------------------------
  // The exit status, in every session
  // ---------------------------------------------------------------------

  /** The process has ended once an exec path has an exit code. */
  predicate EndedOk(s: Session) {
    && (s.path.reaped ==> s.resolved)
    && (PhaseOf(s) >= 6 && s.cfg.verb == Exec ==> s.resolved)
  }

  lemma {:induction false} StepKeepsEndedOk(s: Session, e: Event)
    requires EndedOk(s) && Enabled(s, e)
    ensures EndedOk(Apply(s, e))
  {
    match e
    case OfPath(pe) => PathKeepsEndedOk(s, pe);
    case _ =>
  }

  lemma {:induction false} PathKeepsEndedOk(s: Session, e: PathEvent)
    requires EndedOk(s) && PathEnabled(s, e)
    ensures EndedOk(PathApply(s, e))
  {
  }

  /** A status on the wire is true: an exec's carries the waiter's code and
      comes after the process ended, an attach's is zero. */
  predicate StatusTrue(s: Session) {
    forall k :: 0 <= k < |s.wire| && s.wire[k].Status? ==>
      if s.cfg.verb == Exec then s.wire[k].code == s.cfg.code && s.resolved else s.wire[k].code == 0
  }

  lemma {:induction false} StepKeepsStatusTrue(s: Session, e: Event)
    requires Inv(s) && EndedOk(s) && StatusTrue(s) && Enabled(s, e)
    ensures StatusTrue(Apply(s, e))
  {
    if e == OfPath(Write) {
      WriteKeepsStatusTrue(s);
    } else {
      var s' := Apply(s, e);
      assert s'.wire == s.wire || (|s'.wire| == |s.wire| + 1 && s'.wire[..|s.wire|] == s.wire && !s'.wire[|s.wire|].Status?);
    }
  }

  lemma {:induction false} WriteKeepsStatusTrue(s: Session)
    requires Inv(s) && EndedOk(s) && StatusTrue(s) && PathEnabled(s, Write)
    ensures StatusTrue(PathApply(s, Write))
  {
    assert s.path.exit == if s.cfg.verb == Exec then s.cfg.code else 0;
    forall k | |s.wire| <= k < |PathApply(s, Write).wire|
      ensures PathApply(s, Write).wire[k] == NextFrames(s.path)[k - |s.wire|]
    {
    }
  }

  lemma {:induction false} StatusIsTrue(ss: seq<Session>, es: seq<Event>, i: nat)
    requires IsRun(ss, es) && i < |ss|
    ensures EndedOk(ss[i]) && StatusTrue(ss[i])
  {
    if i > 0 {
      StatusIsTrue(ss, es, i - 1);
      InvRun(ss, es, i - 1);
      assert Enabled(ss[i - 1], es[i - 1]);
      StepKeepsEndedOk(ss[i - 1], es[i - 1]);
      StepKeepsStatusTrue(ss[i - 1], es[i - 1]);
    }
  }

  // ---------------------------------------------------------------------
  // The end of a clean session
  // ---------------------------------------------------------------------

  /** Frame k is the status; the end of stdout, and that of stderr where it is
      open, stand directly before it; no other frame ends anything. */
  predicate EndsAt(wire: seq<Frame>, k: nat, out: nat, err: Option<nat>, error: nat, code: int) {
    && k < |wire| && wire[k] == Status(error, code)
    && (match err
        case None => k >= 1 && wire[k - 1] == Data(out, true, [])
        case Some(sid) => k >= 2 && wire[k - 2] == Data(out, true, []) && wire[k - 1] == Data(sid, true, []))
    && (forall j :: 0 <= j < |wire| && j != k ==> !wire[j].Status?)
    && (forall j :: 0 <= j < |wire| && wire[j].Data? && wire[j].fin ==> k - (if err.None? then 1 else 2) <= j < k)
  }

  /** Where an ordered wire has its status. */
  function StatusAt(p: Path): nat { p.mark + (if p.ids.err.Some? then 2 else 1) }

  lemma EndingFrames(p: Path)
    requires p.ids.out.Some? && p.ids.error.Some?
    ensures var status := Status(p.ids.error.value, p.exit);
      Ending(p) == match p.ids.err
        case None => [Data(p.ids.out.value, true, []), status]
        case Some(sid) => [Data(p.ids.out.value, true, []), Data(sid, true, []), status]
  {
  }

  lemma {:induction false} OrderedEndsAt(s: Session)
    requires Ordered(s) && s.path.ids.out.Some? && s.path.ids.error.Some?
    ensures var ids := s.path.ids;
      EndsAt(s.wire, StatusAt(s.path), ids.out.value, ids.err, ids.error.value, s.path.exit)
    ensures forall j :: StatusAt(s.path) < j < |s.wire| ==> s.wire[j].Reply? || s.wire[j].Ping?
  {
    EndingFrames(s.path);
    forall j: nat | j < |s.wire|
      ensures j < s.path.mark ==> Open(s.wire[j])
      ensures s.path.mark <= j <= StatusAt(s.path) ==> s.wire[j] == Ending(s.path)[j - s.path.mark]
      ensures StatusAt(s.path) < j ==> Quiet(s.wire[j])
    {
      FrameAt(s, j);
    }
  }

  /** Every clean session that is past its ending: the client got the whole
      output of its streams, then their ends, then the status with the code of
      its process, and after it nothing but answers to its own frames. */
  lemma {:induction false} ExitStatusReachesClient(ss: seq<Session>, es: seq<Event>, i: nat) returns (k: nat)
    requires IsRun(ss, es) && i < |ss| && Clean(ss[i]) && (ss[i].path.pc.Teardown? || ss[i].path.pc.Gone?)
    ensures var s := ss[i];
      && {Error, Stdout} <= s.loop.byRole.Keys
      && (s.cfg.stdin ==> Stdin in s.loop.byRole)
      && (!s.cfg.tty ==> s.path.ids.err.Some?)
      && (s.path.ids.err.Some? ==> Stderr in s.loop.byRole)
      && EndsAt(s.wire, k, s.loop.byRole[Stdout], if s.path.ids.err.Some? then Some(s.loop.byRole[Stderr]) else None,
                s.loop.byRole[Error], if s.cfg.verb == Attach then 0 else s.cfg.code)
      && (s.cfg.verb == Exec ==> s.resolved)
      && (forall j :: k < j < |s.wire| ==> s.wire[j].Reply? || s.wire[j].Ping?)
    ensures var s := ss[i];
      && Payload(s.wire[..k], s.loop.byRole[Stdout]) == s.cfg.out.GetOr([])
      && (s.path.ids.err.Some? ==> Payload(s.wire[..k], s.loop.byRole[Stderr]) == s.cfg.err.GetOr([]))
  {
    var s := ss[i];
    OutputThenFinsThenStatus(ss, es, i);
    InvRun(ss, es, i);
    StatusIsTrue(ss, es, i);
    ExpectedIsOpen(s);
    k := StatusAt(s.path);
    OrderedEndsAt(s);
    NothingBetween(s, k, s.loop.byRole[Stdout]);
    if s.path.ids.err.Some? { NothingBetween(s, k, s.loop.byRole[Stderr]); }
  }

  lemma ExpectedIsOpen(s: Session)
    requires BarrierMet(s)
    ensures Error in s.loop.byRole && Stdout in s.loop.byRole
    ensures s.cfg.stdin ==> Stdin in s.loop.byRole
    ensures !s.cfg.tty ==> Stderr in s.loop.byRole
  {
    assert Error in Expected(s.cfg) && Stdout in Expected(s.cfg);
    assert s.cfg.stdin ==> Stdin in Expected(s.cfg);
    assert !s.cfg.tty ==> Stderr in Expected(s.cfg);
  }

  /** The ends carry no bytes. */
  lemma {:induction false} NothingBetween(s: Session, k: nat, sid: nat)
    requires Ordered(s) && s.path.ids.out.Some? && k == StatusAt(s.path) <= |s.wire|
    ensures Payload(s.wire[..k], sid) == Payload(s.wire[..s.path.mark], sid)
  {
    var ends := EndOut(s.path) + EndErr(s.path);
    assert s.wire[s.path.mark..k] == ends by {
      assert s.wire[s.path.mark..s.path.mark + |Ending(s.path)|][..|ends|] == s.wire[s.path.mark..k];
      assert Ending(s.path)[..|ends|] == ends;
    }
    assert s.wire[..k] == s.wire[..s.path.mark] + ends;
    PayloadOfEmptyTail(s.wire[..s.path.mark], ends, sid);
  }

  // ---------------------------------------------------------------------
  // What the barrier and the gate wait for
  // ---------------------------------------------------------------------

  /** The barrier waits for exactly the streams that kubectl opens. */
  lemma BarrierIsExact(s: Session)
    ensures BarrierMet(s) <==>
      && Error in s.loop.byRole && Stdout in s.loop.byRole
      && (s.cfg.stdin ==> Stdin in s.loop.byRole)
      && (!s.cfg.tty ==> Stderr in s.loop.byRole)
  {
    if BarrierMet(s) { ExpectedIsOpen(s); }
  }

  /** The gate never waits for more than the pumps that are bound to come. */
  lemma {:induction false} GateOpens(s: Session)
    requires s.cfg.out.Some? ==> Stdout in s.tasks.registered
    requires !s.cfg.tty && s.cfg.err.Some? ==> Stderr in s.tasks.registered
    ensures GateMet(s)
  {
    var reg := s.tasks.registered;
    if s.cfg.out.Some? && !s.cfg.tty && s.cfg.err.Some? {
      var a, b :| 0 <= a < |reg| && 0 <= b < |reg| && reg[a] == Stdout && reg[b] == Stderr;
    }
  }

  // ---------------------------------------------------------------------
  // Who may leave early
  // ---------------------------------------------------------------------

  /** The client closes its connection, or in an attach half-closes a stream,
      while somebody listens for it. */
  predicate Closing(s: Session, e: Event) {
    !s.path.pc.Arming? && (e == OfLoop(ClientClose) || (e == OfLoop(ClientFin) && s.cfg.verb == Attach))
  }

  /** A detach is on record exactly when the client closed in that sense. */
  lemma {:induction false} DetachExactly(ss: seq<Session>, es: seq<Event>, i: nat)
    requires IsRun(ss, es) && i < |ss|
    ensures ss[i].loop.detach <==> exists k {:trigger es[k]} :: 0 <= k < i && Closing(ss[k], es[k])
  {
    if i > 0 {
      DetachExactly(ss, es, i - 1);
      assert Enabled(ss[i - 1], es[i - 1]);
      DetachStep(ss[i - 1], es[i - 1]);
    }
  }

  lemma {:induction false} DetachStep(s: Session, e: Event)
    requires Enabled(s, e)
    ensures Apply(s, e).loop.detach <==> s.loop.detach || Closing(s, e)
  {
  }

  /** Only an attach leaves without waiting for its output, and only after its
      client half-closed a stream or the connection; a half-close means nothing
      to an exec. */
  lemma {:induction false} OnlyAttachLeavesEarly(ss: seq<Session>, es: seq<Event>, i: nat)
    requires IsRun(ss, es) && i < |ss| && ss[i].path.leftEarly
    ensures ss[i].cfg.verb == Attach && exists k {:trigger es[k]} :: 0 <= k < i && Closing(ss[k], es[k])
  {
    assert Enabled(ss[i - 1], es[i - 1]);
    if ss[i - 1].path.leftEarly {
      OnlyAttachLeavesEarly(ss, es, i - 1);
    } else {
      DetachExactly(ss, es, i - 1);
    }
  }

  // ---------------------------------------------------------------------
  // Every frame of the client is answered
  // ---------------------------------------------------------------------

  /** What the client's frames ask for, in the order they are handled. */
  function Asked(es: seq<Event>): seq<Frame> {
    if es == [] then []
    else
      Asked(es[..|es| - 1]) + match es[|es| - 1]
        case OfLoop(ClientSyn(sid, _)) => [Reply(sid)]
        case OfLoop(ClientPing(id)) => [Ping(id)]
        case _ => []
  }

  function Answers(wire: seq<Frame>): seq<Frame> {
    if wire == [] then []
    else Answers(wire[..|wire| - 1]) + if wire[|wire| - 1].Reply? || wire[|wire| - 1].Ping? then [wire[|wire| - 1]] else []
  }

  /** The reply the read loop is about to write. */
  function Due(l: Loop): seq<Frame> { if l.pc.Replying? then [Reply(l.sid)] else [] }

  lemma {:induction false} AnswersOfBoth(a: seq<Frame>, b: seq<Frame>)
    ensures Answers(a + b) == Answers(a) + Answers(b)
    decreases |b|
  {
    if b == [] {
      assert a + b == a;
    } else {
      assert (a + b)[..|a + b| - 1] == a + b[..|b| - 1];
      AnswersOfBoth(a, b[..|b| - 1]);
    }
  }

  lemma AnswersOfOne(f: Frame)
    ensures Answers([f]) == if f.Reply? || f.Ping? then [f] else []
  {
    assert [f][..0] == [];
  }

  lemma {:induction false} LoopAnswers(s: Session, e: LoopEvent)
    requires LoopEnabled(s, e)
    ensures var s' := LoopApply(s, e);
      Answers(s'.wire) + Due(s'.loop) == Answers(s.wire) + Due(s.loop) +
        match e case ClientSyn(sid, _) => [Reply(sid)] case ClientPing(id) => [Ping(id)] case _ => []
  {
    match e
    case ClientPing(id) =>
      AnswersOfBoth(s.wire, [Ping(id)]);
      AnswersOfOne(Ping(id));
    case SendReply =>
      AnswersOfBoth(s.wire, [Reply(s.loop.sid)]);
      AnswersOfOne(Reply(s.loop.sid));
    case _ =>
  }

  lemma {:induction false} OthersAnswerNothing(s: Session, e: Event)
    requires Enabled(s, e) && !e.OfLoop?
    ensures Answers(Apply(s, e).wire) == Answers(s.wire)
  {
    match e
    case OfPump(WriteData(role)) =>
      var f := Data(s.pumps[role].sid, false, s.pumps[role].held);
      AnswersOfBoth(s.wire, [f]);
      AnswersOfOne(f);
    case OfPath(Write) =>
      AnswersOfBoth(s.wire, NextFrames(s.path));
      if NextFrames(s.path) != [] { AnswersOfOne(NextFrames(s.path)[0]); }
    case _ =>
  }

  /** Each stream the client opens is acknowledged and each of its pings comes
      back, once, with its own number, and in the client's order. */
  lemma {:induction false} ClientIsAnswered(ss: seq<Session>, es: seq<Event>, i: nat)
    requires IsRun(ss, es) && i < |ss|
    ensures Answers(ss[i].wire) + Due(ss[i].loop) == Asked(es[..i])
  {
    if i > 0 {
      ClientIsAnswered(ss, es, i - 1);
      assert Enabled(ss[i - 1], es[i - 1]);
      assert es[..i][..i - 1] == es[..i - 1];
      if es[i - 1].OfLoop? {
        LoopAnswers(ss[i - 1], es[i - 1].loop);
      } else {
        OthersAnswerNothing(ss[i - 1], es[i - 1]);
        assert Asked(es[..i]) == Asked(es[..i - 1]) + [];
      }
    }
  }

  // ---------------------------------------------------------------------
  // Sizes
  // ---------------------------------------------------------------------

  predicate Small(s: Session) {
    && (forall r <- s.pumps :: |s.pumps[r].held| <= 8192)
    && (forall k :: 0 <= k < |s.wire| && s.wire[k].Data? ==> |s.wire[k].payload| <= 8192)
  }

  lemma {:induction false} StepKeepsSmall(s: Session, e: Event)
    requires Small(s) && Enabled(s, e)
    ensures Small(Apply(s, e))
  {
    match e
    case OfPath(pe) => PathKeepsSmall(s, pe);
    case _ =>
  }

  lemma {:induction false} PathKeepsSmall(s: Session, e: PathEvent)
    requires Small(s) && PathEnabled(s, e)
    ensures Small(PathApply(s, e))
  {
    assert e.Write? ==> forall f <- NextFrames(s.path) :: f.Data? ==> f.payload == [];
  }

  /** No DATA frame carries more than one read of 8192 bytes. */
  lemma {:induction false} FramesAreSmall(ss: seq<Session>, es: seq<Event>, i: nat)
    requires IsRun(ss, es) && i < |ss|
    ensures Small(ss[i])
  {
    if i > 0 {
      FramesAreSmall(ss, es, i - 1);
      assert Enabled(ss[i - 1], es[i - 1]);
      StepKeepsSmall(ss[i - 1], es[i - 1]);
    }
  }
}

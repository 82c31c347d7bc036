/** The shared write side of a connection: tasks take turns under one mutex,
    compress and serialize a frame, and push its bytes out in partial writes. */
module Writers {

  import opened Options
  import opened Bytes
  import opened Frames
  import opened FrameReaderModule
  import opened HeaderCodec
  import opened HeaderBlock

  /** What a task asks the writer to send: the acknowledgement of a stream, or
      a frame without a header block. */
  datatype Request = Acknowledge(id: u32) | Send(frame: Frame)

  predicate Sendable(r: Request) {
    match r
    case Acknowledge(id) => id < 0x8000_0000
    case Send(f) => WellFormed(f) && !f.SynReply? && !f.SynStream? && !f.Headers?
  }

  /** The header block of every SYN_REPLY: no pairs. */
  function NoHeaders(): seq<byte> { Block([]) }

  /** The frame of a request, after these blocks were compressed. */
  function FrameOf(c: Codec, blocks: seq<seq<byte>>, r: Request): Frame {
    match r
    case Acknowledge(id) => SynReply(id, 0, c.enc(blocks, NoHeaders()))
    case Send(f) => f
  }

  function BlocksAfter(blocks: seq<seq<byte>>, r: Request): seq<seq<byte>> {
    if r.Acknowledge? then blocks + [NoHeaders()] else blocks
  }

  /** `queues` is what each task has still to send, `log` every request that
      got the mutex, in that order; `held` is the mutex holder with the bytes
      of its frame not yet written; `torn` is set once a write failed or a
      task was aborted in the middle of a frame. */
  datatype State = State(
    queues: seq<seq<Request>>, log: seq<(nat, Request)>, blocks: seq<seq<byte>>,
    wire: seq<byte>, held: Option<(nat, seq<byte>)>, torn: bool)

  datatype Step = Lock(task: nat) | Push(n: nat) | Unlock | Break

  predicate Enabled(s: State, step: Step) {
    match step
    case Lock(t) => s.held.None? && t < |s.queues| && s.queues[t] != []
    case Push(n) => s.held.Some? && 1 <= n <= |s.held.value.1|
    case Unlock => s.held.Some? && s.held.value.1 == []
    case Break => s.held.Some? && s.held.value.1 != []
  }

  function Apply(c: Codec, s: State, step: Step): State
    requires Enabled(s, step)
  {
    match step
    case Lock(t) =>
      var r := s.queues[t][0];
      s.(queues := s.queues[t := s.queues[t][1..]], log := s.log + [(t, r)], blocks := BlocksAfter(s.blocks, r),
         held := Some((t, Serialize(FrameOf(c, s.blocks, r)))))
    case Push(n) =>
      var (t, left) := s.held.value;
      s.(wire := s.wire + left[..n], held := Some((t, left[n..])))
    case Unlock => s.(held := None)
    case Break => s.(held := None, torn := true)
  }

  function Initial(queues: seq<seq<Request>>): State { State(queues, [], [], [], None, false) }

  predicate Takes(c: Codec, s: State, step: Step, s': State) { Enabled(s, step) && s' == Apply(c, s, step) }

  ghost predicate IsRun(c: Codec, ss: seq<State>, steps: seq<Step>, queues: seq<seq<Request>>) {
    && |ss| == |steps| + 1
    && ss[0] == Initial(queues)
    && forall i {:trigger steps[i]} | 0 <= i < |steps| :: Takes(c, ss[i], steps[i], ss[i + 1])
  }

  predicate AllSendable(queues: seq<seq<Request>>) {
    forall t, k :: 0 <= t < |queues| && 0 <= k < |queues[t]| ==> Sendable(queues[t][k])
  }

  // ---------------------------------------------------------------------
  // The frames of a log
  // ---------------------------------------------------------------------

  function LogBlocks(log: seq<(nat, Request)>): seq<seq<byte>> {
    if log == [] then [] else BlocksAfter(LogBlocks(log[..|log| - 1]), log[|log| - 1].1)
  }

  function LogFrames(c: Codec, log: seq<(nat, Request)>): seq<Frame> {
    if log == [] then []
    else
      var front := log[..|log| - 1];
      LogFrames(c, front) + [FrameOf(c, LogBlocks(front), log[|log| - 1].1)]
  }

  /** What one task has sent, in order. */
  function SentBy(log: seq<(nat, Request)>, task: nat): seq<Request> {
    if log == [] then []
    else SentBy(log[..|log| - 1], task) + if log[|log| - 1].0 == task then [log[|log| - 1].1] else []
  }

  lemma {:induction false} SerializeAllAppend(fs: seq<Frame>, f: Frame)
    ensures SerializeAll(fs + [f]) == SerializeAll(fs) + Serialize(f)
  {
    if fs == [] {
      assert fs + [f] == [f] && [f][1..] == [];
    } else {
      assert (fs + [f])[1..] == fs[1..] + [f];
      SerializeAllAppend(fs[1..], f);
    }
  }

  lemma LogAppend(c: Codec, log: seq<(nat, Request)>, t: nat, r: Request)
    ensures LogBlocks(log + [(t, r)]) == BlocksAfter(LogBlocks(log), r)
    ensures LogFrames(c, log + [(t, r)]) == LogFrames(c, log) + [FrameOf(c, LogBlocks(log), r)]
    ensures forall u :: SentBy(log + [(t, r)], u) == SentBy(log, u) + if u == t then [r] else []
  {
    assert (log + [(t, r)])[..|log|] == log;
  }

  // ---------------------------------------------------------------------
  // The invariant
  // ---------------------------------------------------------------------

  function Left(s: State): seq<byte> { if s.held.Some? then s.held.value.1 else [] }

  predicate LogSendable(log: seq<(nat, Request)>) { forall i :: 0 <= i < |log| ==> Sendable(log[i].1) }

  ghost predicate Inv(c: Codec, s: State, queues: seq<seq<Request>>) {
    && s.blocks == LogBlocks(s.log)
    && WireOk(c, s)
    && InOrder(s, queues)
    && HeldOk(c, s)
    && LogSendable(s.log) && AllSendable(s.queues)
  }

  /** Whole, the wire is the frames sent so far up to what is still held; torn,
      bytes of them are missing for good. */
  predicate WireOk(c: Codec, s: State) {
    var sent := SerializeAll(LogFrames(c, s.log));
    && (!s.torn ==> s.wire + Left(s) == sent)
    && (s.torn ==> |s.wire| + |Left(s)| < |sent|)
  }

  /** The mutex holder is the last task in the log, and what it has still to
      write is the end of its frame. */
  predicate HeldOk(c: Codec, s: State) {
    s.held.Some? ==> s.log != [] && |Left(s)| <= |Serialize(LastFrame(c, s.log))|
  }

  function LastFrame(c: Codec, log: seq<(nat, Request)>): Frame
    requires log != []
  {
    FrameOf(c, LogBlocks(log[..|log| - 1]), log[|log| - 1].1)
  }

  ghost predicate InOrder(s: State, queues: seq<seq<Request>>) {
    |s.queues| == |queues| && forall t :: 0 <= t < |queues| ==> SentBy(s.log, t) + s.queues[t] == queues[t]
  }

  lemma {:induction false} LockKeepsOrder(c: Codec, s: State, t: nat, queues: seq<seq<Request>>)
    requires Enabled(s, Lock(t)) && InOrder(s, queues)
    ensures InOrder(Apply(c, s, Lock(t)), queues)
  {
    var s', r := Apply(c, s, Lock(t)), s.queues[t][0];
    LogAppend(c, s.log, t, r);
    forall u | 0 <= u < |queues|
      ensures SentBy(s'.log, u) + s'.queues[u] == queues[u]
    {
      if u == t {
        assert (SentBy(s.log, t) + [r]) + s.queues[t][1..] == SentBy(s.log, t) + s.queues[t];
      }
    }
  }

  lemma {:induction false} LockKeepsInv(c: Codec, s: State, t: nat, queues: seq<seq<Request>>)
    requires Enabled(s, Lock(t)) && Inv(c, s, queues)
    ensures Inv(c, Apply(c, s, Lock(t)), queues)
  {
    LockKeepsOrder(c, s, t, queues);
    LockKeepsWire(c, s, t);
    LockKeepsSendable(c, s, t);
  }

  lemma {:induction false} LockKeepsWire(c: Codec, s: State, t: nat)
    requires Enabled(s, Lock(t)) && s.blocks == LogBlocks(s.log)
    requires WireOk(c, s)
    ensures var s' := Apply(c, s, Lock(t));
      s'.blocks == LogBlocks(s'.log) && HeldOk(c, s') && WireOk(c, s')
  {
    var r := s.queues[t][0];
    LogAppend(c, s.log, t, r);
    assert (s.log + [(t, r)])[..|s.log|] == s.log;
    SerializeAllAppend(LogFrames(c, s.log), FrameOf(c, s.blocks, r));
    assert s.wire + Left(s) == s.wire;
  }

  lemma {:induction false} LockKeepsSendable(c: Codec, s: State, t: nat)
    requires Enabled(s, Lock(t)) && LogSendable(s.log) && AllSendable(s.queues)
    ensures LogSendable(Apply(c, s, Lock(t)).log) && AllSendable(Apply(c, s, Lock(t)).queues)
  {
    var s' := Apply(c, s, Lock(t));
    assert forall u, k :: 0 <= u < |s'.queues| && 0 <= k < |s'.queues[u]| ==>
      s'.queues[u][k] == if u == t then s.queues[u][k + 1] else s.queues[u][k];
  }

  lemma {:induction false} StepKeepsInv(c: Codec, s: State, step: Step, queues: seq<seq<Request>>)
    requires Enabled(s, step) && Inv(c, s, queues)
    ensures Inv(c, Apply(c, s, step), queues)
  {
    match step
    case Lock(t) => LockKeepsInv(c, s, t, queues);
    case Push(n) =>
      var left := Left(s);
      assert (s.wire + left[..n]) + left[n..] == s.wire + left;
    case Unlock =>
    case Break =>
  }

  lemma {:induction false} InvAlongRun(c: Codec, ss: seq<State>, steps: seq<Step>, queues: seq<seq<Request>>, i: nat)
    requires IsRun(c, ss, steps, queues) && AllSendable(queues) && i < |ss|
    ensures Inv(c, ss[i], queues)
  {
    if i > 0 {
      InvAlongRun(c, ss, steps, queues, i - 1);
      assert Takes(c, ss[i - 1], steps[i - 1], ss[i]);
      StepKeepsInv(c, ss[i - 1], steps[i - 1], queues);
    } else {
      forall t | 0 <= t < |queues| ensures SentBy([], t) + queues[t] == queues[t] {}
    }
  }

  // ---------------------------------------------------------------------
  // Whole frames on the wire, blocks in the order they were compressed
  // ---------------------------------------------------------------------

  lemma {:induction false} LogFramesWellFormed(c: Codec, log: seq<(nat, Request)>)
    requires Inverts(c) && LogSendable(log)
    ensures AllWellFormed(LogFrames(c, log))
  {
    if log != [] {
      var front, r := log[..|log| - 1], log[|log| - 1].1;
      LogFramesWellFormed(c, front);
      assert Sendable(log[|log| - 1].1);
      assert |NoHeaders()| == 4;
      assert |c.enc(LogBlocks(front), NoHeaders())| <= 2 * 4 + 64;
      assert WellFormed(FrameOf(c, LogBlocks(front), r));
    }
  }

  /** The frames that are complete on the wire. */
  function Complete(s: State): seq<(nat, Request)> {
    if Left(s) == [] || s.log == [] then s.log else s.log[..|s.log| - 1]
  }

  /** Until a write fails, whatever the interleaving: a peer reading the wire
      gets exactly the frames completed so far, each task's in the order that
      task sent them, and no framing error. */
  lemma {:induction false} WireIsWholeFrames(c: Codec, ss: seq<State>, steps: seq<Step>, queues: seq<seq<Request>>, i: nat)
    requires Inverts(c) && IsRun(c, ss, steps, queues) && AllSendable(queues) && i < |ss| && !ss[i].torn
    ensures DecodeAll(ss[i].wire, false).frames == LogFrames(c, Complete(ss[i]))
    ensures DecodeAll(ss[i].wire, false).last == Closed
    ensures Left(ss[i]) == [] ==> DecodeAll(ss[i].wire, false).left == []
    ensures forall t :: 0 <= t < |queues| ==> SentBy(ss[i].log, t) <= queues[t]
  {
    InvAlongRun(c, ss, steps, queues, i);
    var s := ss[i];
    LogFramesWellFormed(c, s.log);
    if Left(s) == [] {
      assert s.wire + [] == s.wire;
      WholeStream(LogFrames(c, s.log));
    } else {
      CutStream(c, s);
    }
  }

  lemma {:induction false} WholeStream(fs: seq<Frame>)
    requires AllWellFormed(fs)
    ensures DecodeAll(SerializeAll(fs), false) == Decoding(fs, Closed, [])
  {
    DecodeSerialized(fs, [], false);
    assert SerializeAll(fs) + [] == SerializeAll(fs) && fs + [] == fs;
  }

  lemma {:induction false} CutStream(c: Codec, s: State)
    requires Left(s) != [] && HeldOk(c, s) && AllWellFormed(LogFrames(c, s.log))
    requires s.wire + Left(s) == SerializeAll(LogFrames(c, s.log))
    ensures DecodeAll(s.wire, false).frames == LogFrames(c, Complete(s))
    ensures DecodeAll(s.wire, false).last == Closed
  {
    var front, f := LogFrames(c, s.log[..|s.log| - 1]), LastFrame(c, s.log);
    assert LogFrames(c, s.log) == front + [f];
    assert forall g <- front :: g in front + [f];
    assert f in front + [f];
    SerializeAllAppend(front, f);
    var k := |Serialize(f)| - |Left(s)|;
    var all := SerializeAll(front) + Serialize(f);
    assert s.wire == all[..|s.wire|];
    assert all[..|s.wire|] == SerializeAll(front) + Serialize(f)[..k];
    DecodeCutStream(front, f, k);
  }

  // The peer's side of the header compression.

  /** The header blocks a peer's decompressor has seen. */
  function PeerSeen(frames: seq<Frame>): seq<seq<byte>> {
    if frames == [] then []
    else
      var last := frames[|frames| - 1];
      PeerSeen(frames[..|frames| - 1]) + if last.SynReply? then [last.replyBlock] else []
  }

  /** What it makes of them, one result for each SYN_REPLY. */
  function PeerBlocks(c: Codec, frames: seq<Frame>): seq<Option<seq<byte>>> {
    if frames == [] then []
    else
      var front, last := frames[..|frames| - 1], frames[|frames| - 1];
      PeerBlocks(c, front) + if last.SynReply? then [c.dec(PeerSeen(front), last.replyBlock)] else []
  }

  /** How many acknowledgements a log has. */
  function Acknowledgements(log: seq<(nat, Request)>): nat { |LogBlocks(log)| }

  /** Until a write fails, a peer that decodes the wire and feeds its
      decompressor the SYN_REPLY blocks in wire order recovers every one: an
      empty header list for each acknowledgement completed so far. */
  lemma {:induction false} PeerRecoversBlocks(c: Codec, ss: seq<State>, steps: seq<Step>, queues: seq<seq<Request>>, i: nat)
    requires Inverts(c) && IsRun(c, ss, steps, queues) && AllSendable(queues) && i < |ss| && !ss[i].torn
    ensures var blocks := PeerBlocks(c, DecodeAll(ss[i].wire, false).frames);
      && |blocks| == Acknowledgements(Complete(ss[i]))
      && (forall b <- blocks :: b.Some? && ReadBlock(b.value) == Some([]))
  {
    InvAlongRun(c, ss, steps, queues, i);
    WireIsWholeFrames(c, ss, steps, queues, i);
    var s := ss[i];
    assert LogSendable(Complete(s));
    BlocksInLogOrder(c, Complete(s));
  }

  /** Blocks are compressed in the order of the log. */
  lemma {:induction false} BlocksInLogOrder(c: Codec, log: seq<(nat, Request)>)
    requires Inverts(c) && LogSendable(log)
    ensures PeerSeen(LogFrames(c, log)) == Compressed(c, LogBlocks(log))
    ensures |PeerBlocks(c, LogFrames(c, log))| == |LogBlocks(log)|
    ensures forall b <- PeerBlocks(c, LogFrames(c, log)) :: b == Some(NoHeaders())
    ensures ReadBlock(NoHeaders()) == Some([])
  {
    assert Block([]) + [] == Block([]);
    ReadsBlockBack([], []);
    if log != [] {
      var front, r := log[..|log| - 1], log[|log| - 1].1;
      BlocksInLogOrder(c, front);
      var fs, f := LogFrames(c, front), FrameOf(c, LogBlocks(front), r);
      assert Sendable(r);
      assert LogFrames(c, log) == fs + [f] && (fs + [f])[..|fs|] == fs;
      if r.Acknowledge? {
        CompressedAppend(c, LogBlocks(front), NoHeaders());
        assert c.dec(Compressed(c, LogBlocks(front)), c.enc(LogBlocks(front), NoHeaders())) == Some(NoHeaders());
      }
    }
  }

  // ---------------------------------------------------------------------
  // After a failed write
  // ---------------------------------------------------------------------

  /** Parsed frames are never longer than the bytes they came from. */
  lemma {:induction false} FramesFitStream(stream: seq<byte>)
    ensures |SerializeAll(DecodeAll(stream, false).frames)| <= |stream|
    decreases |stream|
  {
    DecodeStep(stream, false);
    match Parse(stream)
    case Parsed(f, n) =>
      ParsedIsWellFormed(stream);
      FramesFitStream(stream[n..]);
      var rest := DecodeAll(stream[n..], false).frames;
      assert ([f] + rest)[1..] == rest;
    case _ =>
  }

  /** Whenever the mutex is free: a peer gets exactly the frames that were sent
      if and only if no task ever broke off in the middle of one. */
  lemma {:induction false} FramesArriveExactlyWhenNeverTorn(
      c: Codec, ss: seq<State>, steps: seq<Step>, queues: seq<seq<Request>>, i: nat)
    requires Inverts(c) && IsRun(c, ss, steps, queues) && AllSendable(queues) && i < |ss| && ss[i].held.None?
    ensures DecodeAll(ss[i].wire, false).frames == LogFrames(c, ss[i].log) <==> !ss[i].torn
    ensures ss[i].torn <==> exists k :: 0 <= k < i && steps[k] == Break
  {
    InvAlongRun(c, ss, steps, queues, i);
    TornByBreak(c, ss, steps, queues, i);
    if ss[i].torn {
      FramesFitStream(ss[i].wire);
    } else {
      WireIsWholeFrames(c, ss, steps, queues, i);
    }
  }

  lemma {:induction false} TornByBreak(c: Codec, ss: seq<State>, steps: seq<Step>, queues: seq<seq<Request>>, i: nat)
    requires IsRun(c, ss, steps, queues) && i < |ss|
    ensures ss[i].torn <==> exists k :: 0 <= k < i && steps[k] == Break
  {
    if i > 0 {
      TornByBreak(c, ss, steps, queues, i - 1);
      assert Takes(c, ss[i - 1], steps[i - 1], ss[i]);
    }
  }

  /** Nothing stops the next task after one breaks off in the middle of a
      frame, and the peer then loses the next frame too. */
  lemma {:induction false} BrokenFrameSwallowsNext(c: Codec) returns (ss: seq<State>, steps: seq<Step>)
    ensures IsRun(c, ss, steps, [[Send(Ping(1))], [Send(Ping(2))]])
    ensures |ss| == 7 && ss[6].held.None? && |ss[6].log| == 2
    ensures DecodeAll(ss[6].wire, false).frames == []
  {
    var s0 := Initial([[Send(Ping(1))], [Send(Ping(2))]]);
    var s1 := Apply(c, s0, Lock(0));
    var s2 := Apply(c, s1, Push(4));
    var s3 := Apply(c, s2, Break);
    var s4 := Apply(c, s3, Lock(1));
    var s5 := Apply(c, s4, Push(12));
    ss := [s0, s1, s2, s3, s4, s5, Apply(c, s5, Unlock)];
    steps := [Lock(0), Push(4), Break, Lock(1), Push(12), Unlock];
    TornPingSwallows(s5.wire);
  }

  lemma {:induction false} TornPingSwallows(wire: seq<byte>)
    requires wire == Serialize(Ping(1))[..4] + Serialize(Ping(2))
    ensures Parse(wire) == NeedMore
  {
    var p, q := Serialize(Ping(1)), Serialize(Ping(2));
    assert p[..4] == [128, 3] + BE16(PING);
    assert wire[5..8] == q[1..4] && q[1..4] == [3] + BE16(PING);
    assert LengthOf(wire) == 65536 * 3 + FromBE16(BE16(PING));
  }

  // ---------------------------------------------------------------------
  // What a peer gets for a request
  // ---------------------------------------------------------------------

  /** The answer to an acknowledgement is a SYN_REPLY of that very stream
      without flags; any other frame arrives as it was sent. */
  predicate Serves(f: Frame, r: Request) {
    match r
    case Acknowledge(id) => f.SynReply? && f.replyId == id && f.replyFlags == 0
    case Send(g) => f == g
  }

  lemma {:induction false} LogIsServed(c: Codec, log: seq<(nat, Request)>, k: nat)
    requires k < |log|
    ensures |LogFrames(c, log)| == |log| && Serves(LogFrames(c, log)[k], log[k].1)
    decreases |log|
  {
    var front := log[..|log| - 1];
    if k < |front| {
      LogIsServed(c, front, k);
    } else if front != [] {
      LogIsServed(c, front, 0);
    }
  }

  /** Until a write fails, the k-th frame a peer decodes serves the k-th request
      that got the mutex. */
  lemma {:induction false} RequestsAreServed(c: Codec, ss: seq<State>, steps: seq<Step>, queues: seq<seq<Request>>, i: nat, k: nat)
    requires Inverts(c) && IsRun(c, ss, steps, queues) && AllSendable(queues) && i < |ss| && !ss[i].torn
    requires k < |DecodeAll(ss[i].wire, false).frames|
    ensures k < |ss[i].log| && Serves(DecodeAll(ss[i].wire, false).frames[k], ss[i].log[k].1)
  {
    WireIsWholeFrames(c, ss, steps, queues, i);
    if Complete(ss[i]) != [] { LogIsServed(c, Complete(ss[i]), 0); }
    if k < |Complete(ss[i])| { LogIsServed(c, Complete(ss[i]), k); }
  }
}

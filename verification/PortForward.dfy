/** The SPDY port-forward loop: stream pairs keyed by request, one dialed TCP
    connection behind each data stream. */
module PortForwarding {

  import opened Options
  import opened Bytes
  import opened Frames
  import opened HeaderCodec
  import opened Messages
  import opened FrameReaderModule
  import H = HeaderBlock
  import R = ReadLoops
  import Stamp

  type Key = seq<byte>

  const PORT: seq<byte> := [112, 111, 114, 116]
  const REQUEST_ID: seq<byte> := [114, 101, 113, 117, 101, 115, 116, 73, 68]
  const PORT_DASH: seq<byte> := [112, 111, 114, 116, 45]
  const REFUSED: u32 := 3
  const DIAL_FAILED: seq<byte> := [100, 105, 97, 108, 32, 102, 97, 105, 108, 101, 100]

  // ---------------------------------------------------------------------
  // What the headers of a stream say
  // ---------------------------------------------------------------------

  /** A decimal number of at most 16 bits, with an optional plus sign. */
  function ParsePort(s: seq<byte>): Option<nat> {
    var digits := if s != [] && s[0] == 43 then s[1..] else s;
    if digits == [] then None else DigitsValue(digits, 0)
  }

  function DigitsValue(s: seq<byte>, acc: nat): Option<nat> {
    if s == [] then Some(acc)
    else if !(48 <= s[0] <= 57) then None
    else
      var n: int := s[0];
      if 10 * acc + (n - 48) > 65535 then None else DigitsValue(s[1..], 10 * acc + (n - 48))
  }

  function PortOf(headers: seq<H.Header>): nat {
    match H.Get(headers, PORT)
    case None => 0
    case Some(v) => ParsePort(v).GetOr(0)
  }

  /** The request id, or the port in its place. */
  function KeyOf(headers: seq<H.Header>): Key {
    match H.Get(headers, REQUEST_ID)
    case None => PORT_DASH + Stamp.Digits(PortOf(headers))
    case Some(v) => v
  }

  /** Everything that is not an error stream is a data stream. */
  predicate IsData(headers: seq<H.Header>) {
    var t := H.Get(headers, R.STREAM_TYPE);
    t.None? || t.value != R.ERROR_NAME
  }

  // ---------------------------------------------------------------------
  // The loop
  // ---------------------------------------------------------------------

  /** `conn` is the connection dialed for the pair's data stream. */
  datatype Pair = Pair(port: nat, dataStream: Option<u32>, errorStream: Option<u32>, conn: Option<nat>)

  /** A dialed connection: what was written to it, and whether its write half
      was shut down. A write after that fails and is ignored. A pair that gets
      a new connection drops the write half of its old one, which shuts it. */
  datatype Conn = Conn(port: nat, written: seq<byte>, shut: bool)

  datatype Answer = Acknowledged(id: u32) | Ponged(id: u32) | Failure(id: u32, text: seq<byte>) | Reset(id: u32, status: u32)

  datatype Forwarding = Forwarding(
    pairs: map<Key, Pair>, dataRoute: map<u32, Key>, conns: seq<Conn>, answers: seq<Answer>, ended: bool)

  const START: Forwarding := Forwarding(map[], map[], [], [], false)

  function PairFor(s: Forwarding, headers: seq<H.Header>): Pair {
    var p := if KeyOf(headers) in s.pairs then s.pairs[KeyOf(headers)] else Pair(PortOf(headers), None, None, None);
    if p.port == 0 then p.(port := PortOf(headers)) else p
  }

  function Dropped(conns: seq<Conn>, previous: Option<nat>): (r: seq<Conn>)
    ensures |r| == |conns|
  {
    if previous.Some? && previous.value < |conns| then conns[previous.value := conns[previous.value].(shut := true)]
    else conns
  }

  /** A new stream, with the outcome of the dial if it needs one. */
  function Opened(s: Forwarding, id: u32, headers: seq<H.Header>, dialed: bool): Forwarding {
    var key, p, acked := KeyOf(headers), PairFor(s, headers), s.answers + [Acknowledged(id)];
    if !IsData(headers) then
      s.(pairs := s.pairs[key := p.(errorStream := Some(id))], answers := acked)
    else if dialed then
      s.(pairs := s.pairs[key := p.(dataStream := Some(id), conn := Some(|s.conns|))],
         dataRoute := s.dataRoute[id := key], conns := Dropped(s.conns, p.conn) + [Conn(p.port, [], false)], answers := acked)
    else
      s.(pairs := s.pairs[key := p.(dataStream := Some(id))], dataRoute := s.dataRoute[id := key],
         answers := acked + match p.errorStream
           case None => [Reset(id, REFUSED)]
           case Some(eid) => [Failure(eid, DIAL_FAILED), Reset(id, REFUSED), Reset(eid, REFUSED)])
  }

  function ConnFor(s: Forwarding, id: u32): Option<nat> {
    if id in s.dataRoute && s.dataRoute[id] in s.pairs then s.pairs[s.dataRoute[id]].conn else None
  }

  function WrittenTo(c: Conn, data: seq<byte>, fin: bool): Conn {
    if c.shut then c else c.(written := c.written + data, shut := fin)
  }

  function Received(s: Forwarding, id: u32, fin: bool, data: seq<byte>): Forwarding {
    match ConnFor(s, id)
    case None => s
    case Some(c) => if c < |s.conns| then s.(conns := s.conns[c := WrittenTo(s.conns[c], data, fin)]) else s
  }

  function Step(s: Forwarding, m: Message, dialed: bool): Forwarding {
    match m
    case Open(id, headers, _, _, _) => Opened(s, id, headers, dialed)
    case Input(id, flags, data) => Received(s, id, R.HasFin(flags), data)
    case Hint(_, _, _) => s
    case Probe(id) => s.(answers := s.answers + [Ponged(id)])
    case Tune(_) => s
    case Leave(_) => s.(ended := true)
  }

  class PortForwarder {
    var pairs: map<Key, Pair>
    var dataRoute: map<u32, Key>
    var conns: seq<Conn>
    var answers: seq<Answer>
    var ended: bool
    var seen: seq<seq<byte>>
    const codec: Codec

    function State(): Forwarding
      reads this
    {
      Forwarding(pairs, dataRoute, conns, answers, ended)
    }

    predicate Valid()
      reads this
    {
      Consistent(State())
    }

    constructor (codec: Codec)
      ensures State() == START && seen == [] && this.codec == codec && Valid()
    {
      pairs, dataRoute, conns, answers, ended, seen := map[], map[], [], [], false, [];
      this.codec := codec;
    }

    /** One frame; `dialed` is the outcome of the dial a data stream needs. */
    method HandleFrame(f: Frame, dialed: bool)
      requires Valid() && !ended
      modifies this
      ensures Valid()
      ensures State() == Step(old(State()), Hear(codec, old(seen), f), dialed)
      ensures seen == SeenAfter(old(seen), f)
    {
      StepKeepsConsistent(State(), Hear(codec, seen, f), dialed);
      match f
      case SynStream(id, _, _, _, block) =>
        var headers := HeadersOf(codec, seen, block);
        seen := seen + [block];
        HandleOpen(id, headers, dialed);
      case Data(id, flags, data) =>
        if id in dataRoute {
          var pair := pairs[dataRoute[id]];
          if pair.conn.Some? {
            var c := pair.conn.value;
            var conn := conns[c];
            if !conn.shut {
              conn := conn.(written := conn.written + data);
              if R.HasFin(flags) { conn := conn.(shut := true); }
            }
            conns := conns[c := conn];
          }
        }
      case Ping(id) => answers := answers + [Ponged(id)];
      case RstStream(_, _) => ended := true;
      case GoAway(_, _) => ended := true;
      case _ =>
    }

    /** The loop, over the connection's input; `dials` answers its dials. */
    method Run(reader: FrameReader, dials: seq<bool>)
      requires reader.Valid() && State() == START && seen == []
      requires |HearAll(codec, [], DecodeAll(reader.Stream(), reader.failing).frames)| <= |dials|
      modifies this, reader
      ensures var heard := HearAll(codec, [], DecodeAll(old(reader.Stream()), reader.failing).frames);
        |heard| <= |dials| && State() == After(Turns(heard, dials))
    {
      ghost var heard := HearAll(codec, [], DecodeAll(reader.Stream(), reader.failing).frames);
      var n := 0;
      while !ended
        invariant reader.Valid() && Valid()
        invariant Handled(State(), heard, dials, n)
        invariant heard[n..] == HearAll(codec, seen, DecodeAll(reader.Stream(), reader.failing).frames)
        decreases |reader.Stream()|
      {
        DecodeStep(reader.Stream(), reader.failing);
        var r := reader.ReadFrame();
        if !r.GotFrame? {
          AllHandled(State(), heard, dials, n);
          return;
        }
        TurnFollows(State(), codec, heard, n, dials, seen, r.frame, DecodeAll(reader.Stream(), reader.failing).frames);
        HandleFrame(r.frame, dials[n]);
        n := n + 1;
      }
      AllHandled(State(), heard, dials, n);
    }

    method HandleOpen(id: u32, headers: seq<H.Header>, dialed: bool)
      requires Valid()
      modifies this
      ensures State() == Opened(old(State()), id, headers, dialed)
      ensures seen == old(seen)
    {
      var port, key := PortOf(headers), KeyOf(headers);
      answers := answers + [Acknowledged(id)];
      var entry := Pair(port, None, None, None);
      if key in pairs { entry := pairs[key]; }
      if entry.port == 0 { entry := entry.(port := port); }
      if !IsData(headers) {
        entry := entry.(errorStream := Some(id));
      } else {
        entry := entry.(dataStream := Some(id));
        dataRoute := dataRoute[id := key];
        if dialed {
          if entry.conn.Some? { conns := conns[entry.conn.value := conns[entry.conn.value].(shut := true)]; }
          entry := entry.(conn := Some(|conns|));
          conns := conns + [Conn(entry.port, [], false)];
        } else if entry.errorStream.None? {
          answers := answers + [Reset(id, REFUSED)];
        } else {
          var eid := entry.errorStream.value;
          answers := answers + [Failure(eid, DIAL_FAILED), Reset(id, REFUSED), Reset(eid, REFUSED)];
        }
      }
      pairs := pairs[key := entry];
    }
  }

  lemma HearStep(c: Codec, seen: seq<seq<byte>>, f: Frame, rest: seq<Frame>)
    ensures HearAll(c, seen, [f] + rest) == [Hear(c, seen, f)] + HearAll(c, SeenAfter(seen, f), rest)
  {
    assert ([f] + rest)[1..] == rest;
  }

  /** The state after the first n messages. */
  predicate Handled(s: Forwarding, heard: seq<Message>, dials: seq<bool>, n: nat) {
    n <= |heard| <= |dials| && s == After(Turns(heard, dials)[..n])
  }

  lemma AllHandled(s: Forwarding, heard: seq<Message>, dials: seq<bool>, n: nat)
    requires Handled(s, heard, dials, n) && (s.ended || heard[n..] == [])
    ensures s == After(Turns(heard, dials))
  {
    EndedStays(Turns(heard, dials), n);
  }

  lemma {:induction false} TurnFollows(s: Forwarding, c: Codec, heard: seq<Message>, n: nat, dials: seq<bool>,
                                       seen: seq<seq<byte>>, f: Frame, rest: seq<Frame>)
    requires Handled(s, heard, dials, n) && !s.ended
    requires heard[n..] == HearAll(c, seen, [f] + rest)
    ensures n < |heard| && heard[n + 1..] == HearAll(c, SeenAfter(seen, f), rest)
    ensures Handled(Step(s, Hear(c, seen, f), dials[n]), heard, dials, n + 1)
  {
    HearStep(c, seen, f, rest);
    assert heard[n..][0] == heard[n] && heard[n..][1..] == heard[n + 1..];
    assert Turns(heard, dials)[..n + 1][..n] == Turns(heard, dials)[..n];
  }

  // ---------------------------------------------------------------------
  // Whole conversations
  // ---------------------------------------------------------------------

  /** A message, and the outcome of the dial it would need. */
  datatype Turn = Turn(m: Message, dialed: bool)

  function Turns(ms: seq<Message>, dials: seq<bool>): (ts: seq<Turn>)
    requires |ms| <= |dials|
    ensures |ts| == |ms| && forall i :: 0 <= i < |ts| ==> ts[i] == Turn(ms[i], dials[i])
  {
    seq(|ms|, i requires 0 <= i < |ms| => Turn(ms[i], dials[i]))
  }

  /** The state after these turns; nothing happens once the loop ended. */
  function After(ts: seq<Turn>): Forwarding {
    if ts == [] then START
    else
      var s, t := After(ts[..|ts| - 1]), ts[|ts| - 1];
      if s.ended then s else Step(s, t.m, t.dialed)
  }

  lemma {:induction false} EndedStays(ts: seq<Turn>, n: nat)
    requires n <= |ts| && (After(ts[..n]).ended || n == |ts|)
    ensures After(ts) == After(ts[..n])
    decreases |ts|
  {
    if n < |ts| {
      assert ts[..|ts| - 1][..n] == ts[..n];
      EndedStays(ts[..|ts| - 1], n);
    } else {
      assert ts[..n] == ts;
    }
  }

  lemma {:induction false} AfterIsConsistent(ts: seq<Turn>)
    ensures Consistent(After(ts))
  {
    if ts != [] {
      var s, t := After(ts[..|ts| - 1]), ts[|ts| - 1];
      AfterIsConsistent(ts[..|ts| - 1]);
      StepKeepsConsistent(s, t.m, t.dialed);
    }
  }

  lemma PrefixTurns(ms: seq<Message>, dials: seq<bool>, n: nat)
    requires n <= |ms| <= |dials|
    ensures Turns(ms, dials)[..n] == Turns(ms[..n], dials)
  {
  }

  lemma {:induction false} LeaveEnds(ms: seq<Message>, dials: seq<bool>, n: nat)
    requires n < |ms| <= |dials| && ms[n].Leave? && !After(Turns(ms[..n], dials)).ended
    ensures After(Turns(ms, dials)) == After(Turns(ms[..n], dials)).(ended := true)
  {
    var ts := Turns(ms, dials);
    PrefixTurns(ms, dials, n);
    assert ts[..n + 1][..n] == ts[..n];
    EndedStays(ts, n + 1);
  }

  /** Only the messages up to the first that ends the loop matter. */
  lemma {:induction false} AfterHeeded(ms: seq<Message>, dials: seq<bool>)
    requires |ms| <= |dials|
    ensures !After(Turns(Heeded(ms), dials)).ended
    ensures After(Turns(ms, dials)) == After(Turns(Heeded(ms), dials)).(ended := |Heeded(ms)| < |ms|)
  {
    var h := Heeded(ms);
    assert h == ms[..|h|];
    StaysOpen(h, dials);
    if |h| < |ms| { LeaveEnds(ms, dials, |h|); } else { assert h == ms; }
  }

  lemma {:induction false} StaysOpen(ms: seq<Message>, dials: seq<bool>)
    requires |ms| <= |dials| && R.Stays(ms)
    ensures !After(Turns(ms, dials)).ended
    decreases |ms|
  {
    if ms != [] {
      StaysOpen(ms[..|ms| - 1], dials);
      PrefixTurns(ms, dials, |ms| - 1);
      assert ms[|ms| - 1] in ms;
    }
  }

  /** What a HEADERS frame is heard as makes no difference. */
  lemma {:induction false} AfterEcho(es: seq<Message>, ms: seq<Message>, dials: seq<bool>)
    requires |es| == |ms| <= |dials|
    requires forall i :: 0 <= i < |ms| ==> if ms[i].Hint? then es[i].Tune? else es[i] == ms[i]
    ensures After(Turns(es, dials)) == After(Turns(ms, dials))
    decreases |ms|
  {
    if ms != [] {
      PrefixTurns(es, dials, |es| - 1);
      PrefixTurns(ms, dials, |ms| - 1);
      AfterEcho(es[..|ms| - 1], ms[..|ms| - 1], dials);
    }
  }

  /** Any conversation of a client, through header lists, compression, framing
      and arbitrary reads, leaves the forwarder where the messages say, as long
      as no stream is opened after a HEADERS frame. */
  method ServeForward(c: Codec, ms: seq<Message>, dials: seq<bool>, incoming: seq<seq<byte>>)
    returns (forwarder: PortForwarder)
    requires Inverts(c) && AllSayable(ms) && !OpenAfterHint(Heeded(ms)) && |ms| <= |dials|
    requires (forall chunk <- incoming :: Read(chunk)) && Flatten(incoming) == SerializeAll(ClientFrames(c, [], ms))
    ensures forwarder.State() == After(Turns(ms, dials))
  {
    var reader := new FrameReader(incoming, false);
    forwarder := new PortForwarder(c);
    ConversationDecodes(c, ms);
    ghost var heard := HearAll(c, [], ClientFrames(c, [], ms));
    AfterHeeded(ms, dials);
    AfterHeeded(heard, dials);
    AfterEcho(Heeded(heard), Heeded(ms), dials);
    forwarder.Run(reader, dials);
  }

  // ---------------------------------------------------------------------
  // Consistency
  // ---------------------------------------------------------------------

  /** Every route leads to a pair that has a data stream, every connection of a
      pair exists, and no two pairs share one. */
  predicate Consistent(s: Forwarding) {
    && (forall id <- s.dataRoute :: s.dataRoute[id] in s.pairs && s.pairs[s.dataRoute[id]].dataStream.Some?)
    && (forall k <- s.pairs :: s.pairs[k].conn.Some? ==> s.pairs[k].conn.value < |s.conns| && s.pairs[k].dataStream.Some?)
    && (forall k, l | k in s.pairs && l in s.pairs && k != l ::
          s.pairs[k].conn.Some? ==> s.pairs[k].conn != s.pairs[l].conn)
  }

  lemma {:induction false} StepKeepsConsistent(s: Forwarding, m: Message, dialed: bool)
    requires Consistent(s)
    ensures Consistent(Step(s, m, dialed))
  {
    if m.Open? { OpenKeepsConsistent(s, m.id, m.headers, dialed); }
  }

  lemma {:induction false} OpenKeepsConsistent(s: Forwarding, id: u32, headers: seq<H.Header>, dialed: bool)
    requires Consistent(s)
    ensures Consistent(Opened(s, id, headers, dialed))
  {
    var s', key := Opened(s, id, headers, dialed), KeyOf(headers);
    assert s'.pairs.Keys == s.pairs.Keys + {key};
    forall k, l | k in s'.pairs && l in s'.pairs && k != l && s'.pairs[k].conn.Some?
      ensures s'.pairs[k].conn != s'.pairs[l].conn
    {
      if IsData(headers) && dialed {
        assert k != key ==> s'.pairs[k] == s.pairs[k];
        assert l != key ==> s'.pairs[l] == s.pairs[l];
      } else {
        assert s'.pairs[k].conn == if k in s.pairs then s.pairs[k].conn else None;
        assert s'.pairs[l].conn == if l in s.pairs then s.pairs[l].conn else None;
      }
    }
  }

  /** A pair's data stream is routed back to the pair. */
  predicate RoutedBack(s: Forwarding) {
    forall k <- s.pairs :: s.pairs[k].dataStream.Some? ==>
      s.pairs[k].dataStream.value in s.dataRoute && s.dataRoute[s.pairs[k].dataStream.value] == k
  }

  /** That is kept by every frame but the reuse of a data stream's id under
      another key. */
  lemma {:induction false} StepKeepsRoutedBack(s: Forwarding, m: Message, dialed: bool)
    requires RoutedBack(s)
    ensures RoutedBack(Step(s, m, dialed)) <==>
      !(m.Open? && IsData(m.headers) &&
        exists k <- s.pairs :: k != KeyOf(m.headers) && s.pairs[k].dataStream == Some(m.id))
  {
    if m.Open? && IsData(m.headers) {
      var s', key := Step(s, m, dialed), KeyOf(m.headers);
      assert s'.dataRoute[m.id] == key && s'.pairs[key].dataStream == Some(m.id);
      forall k | k in s.pairs && k != key
        ensures s'.pairs[k] == s.pairs[k]
      {
      }
    }
  }
}

/** The exec read loop as a consumer of bytes: what a client opens and sends,
    through header lists, compression, framing and arbitrary reads, ends up in
    the right place. */
module ReadLoops {

  import opened Options
  import opened Bytes
  import opened Frames
  import opened FrameReaderModule
  import opened HeaderCodec
  import opened Messages
  import H = HeaderBlock
  import E = ExecSession

  type Role = E.Role

  /** "streamType" and the values it may take. */
  const STREAM_TYPE: seq<byte> := [115, 116, 114, 101, 97, 109, 84, 121, 112, 101]
  const STDIN_NAME: seq<byte> := [115, 116, 100, 105, 110]
  const STDOUT_NAME: seq<byte> := [115, 116, 100, 111, 117, 116]
  const STDERR_NAME: seq<byte> := [115, 116, 100, 101, 114, 114]
  const ERROR_NAME: seq<byte> := [101, 114, 114, 111, 114]
  const RESIZE_NAME: seq<byte> := [114, 101, 115, 105, 122, 101]

  /** The role the first "streamType" header names, in any case. */
  function RoleOf(headers: seq<H.Header>): Role {
    match H.Get(headers, STREAM_TYPE)
    case None => E.Other
    case Some(v) =>
      if v == STDIN_NAME then E.Stdin
      else if v == STDOUT_NAME then E.Stdout
      else if v == STDERR_NAME then E.Stderr
      else if v == ERROR_NAME then E.Error
      else if v == RESIZE_NAME then E.Resize
      else E.Other
  }

  predicate HasFin(flags: byte) { flags % 2 == 1 }

  /** The part of the loop's state that the messages determine: which stream
      has which role, what went to the process's standard input and whether it
      is still open, and what the loop answers. */
  datatype Answer = Acknowledged(id: u32) | Ponged(id: u32)
  datatype Routing = Routing(
    roles: map<u32, Role>, byRole: map<Role, u32>,
    stdin: seq<byte>, stdinOpen: bool, answers: seq<Answer>, ended: bool)

  function Start(hasStdin: bool): Routing { Routing(map[], map[], [], hasStdin, [], false) }

  function Opened(r: Routing, id: u32, role: Role): Routing {
    r.(roles := r.roles[id := role], byRole := r.byRole[role := id], answers := r.answers + [Acknowledged(id)])
  }

  function Received(r: Routing, id: u32, fin: bool, data: seq<byte>): Routing {
    if id in r.roles && r.roles[id] == E.Stdin then
      r.(stdin := if r.stdinOpen then r.stdin + data else r.stdin, stdinOpen := r.stdinOpen && !fin)
    else r
  }

  /** What a message means, with no encoding in sight. */
  function Meaning(r: Routing, m: Message): Routing {
    match m
    case Open(id, headers, _, _, _) => Opened(r, id, RoleOf(headers))
    case Input(id, flags, data) => Received(r, id, HasFin(flags), data)
    case Hint(_, _, _) => r
    case Probe(id) => r.(answers := r.answers + [Ponged(id)])
    case Tune(_) => r
    case Leave(_) => r.(ended := true)
  }

  function MeaningOfAll(r: Routing, ms: seq<Message>): Routing
    decreases |ms|
  {
    if ms == [] || r.ended then r else MeaningOfAll(Meaning(r, ms[0]), ms[1..])
  }

  // ---------------------------------------------------------------------
  // The loop over frames
  // ---------------------------------------------------------------------

  /** `seen` is what the decompressor was fed so far. */
  datatype Loop = Loop(routing: Routing, seen: seq<seq<byte>>)

  /** One turn of the loop. */
  function Handle(c: Codec, l: Loop, f: Frame): Loop {
    Loop(Meaning(l.routing, Hear(c, l.seen, f)), SeenAfter(l.seen, f))
  }

  function HandleAll(c: Codec, l: Loop, fs: seq<Frame>): Loop
    decreases |fs|
  {
    if fs == [] || l.routing.ended then l else HandleAll(c, Handle(c, l, fs[0]), fs[1..])
  }

  /** The read loop itself, over the connection's input. */
  class ExecReadLoop {
    var roles: map<u32, Role>
    var byRole: map<Role, u32>
    var stdin: seq<byte>
    var stdinOpen: bool
    var answers: seq<Answer>
    var ended: bool
    var seen: seq<seq<byte>>
    const codec: Codec

    function State(): Loop
      reads this
    {
      Loop(Routing(roles, byRole, stdin, stdinOpen, answers, ended), seen)
    }

    constructor (codec: Codec, hasStdin: bool)
      ensures State() == Loop(Start(hasStdin), []) && this.codec == codec
    {
      roles, byRole, stdin, stdinOpen, answers, ended, seen := map[], map[], [], hasStdin, [], false, [];
      this.codec := codec;
    }

    /** The arms of the loop. */
    method HandleFrame(f: Frame)
      requires !ended
      modifies this
      ensures State() == Handle(codec, old(State()), f)
    {
      match f
      case SynStream(id, _, _, _, block) =>
        var headers := HeadersOf(codec, seen, block);
        seen := seen + [block];
        var role := RoleOf(headers);
        answers := answers + [Acknowledged(id)];
        roles := roles[id := role];
        byRole := byRole[role := id];
      case Data(id, flags, data) =>
        var onStdin := id in roles && roles[id] == E.Stdin;
        if onStdin && stdinOpen {
          stdin := stdin + data;
        }
        if HasFin(flags) && onStdin {
          stdinOpen := false;
        }
      case Ping(id) => answers := answers + [Ponged(id)];
      case RstStream(_, _) => ended := true;
      case GoAway(_, _) => ended := true;
      case Settings(_) =>
      case WindowUpdate(_, _) =>
      case Headers(_, _, _) =>
      case SynReply(_, _, _) =>
    }

    /** Frames are handled as they become complete, until one ends the loop or
        none can be read. */
    method Run(reader: FrameReader)
      requires reader.Valid()
      modifies this, reader
      ensures State() == HandleAll(codec, old(State()), DecodeAll(old(reader.Stream()), reader.failing).frames)
    {
      ghost var frames := DecodeAll(reader.Stream(), reader.failing).frames;
      while !ended
        invariant reader.Valid()
        invariant HandleAll(codec, old(State()), frames)
               == HandleAll(codec, State(), DecodeAll(reader.Stream(), reader.failing).frames)
        decreases |reader.Stream()|
      {
        DecodeStep(reader.Stream(), reader.failing);
        var r := reader.ReadFrame();
        if !r.GotFrame? { return; }
        HandleStep(codec, State(), r.frame, DecodeAll(reader.Stream(), reader.failing).frames);
        HandleFrame(r.frame);
      }
    }
  }

  lemma HandleStep(c: Codec, l: Loop, f: Frame, rest: seq<Frame>)
    requires !l.routing.ended
    ensures HandleAll(c, l, [f] + rest) == HandleAll(c, Handle(c, l, f), rest)
  {
    assert ([f] + rest)[1..] == rest;
  }

  // ---------------------------------------------------------------------
  // Routing survives all layers
  // ---------------------------------------------------------------------

  /** The loop does to its frames what the messages heard in them mean. */
  lemma {:induction false} LoopFollowsMessages(c: Codec, l: Loop, fs: seq<Frame>)
    ensures HandleAll(c, l, fs).routing == MeaningOfAll(l.routing, HearAll(c, l.seen, fs))
    decreases |fs|
  {
    if fs != [] && !l.routing.ended {
      LoopFollowsMessages(c, Handle(c, l, fs[0]), fs[1..]);
    }
  }

  /** What the messages mean does not depend on any after the first that ends
      the loop. */
  lemma {:induction false} MeaningOfHeeded(r: Routing, ms: seq<Message>)
    requires !r.ended
    ensures !MeaningOfAll(r, Heeded(ms)).ended
    ensures MeaningOfAll(r, ms) == MeaningOfAll(r, Heeded(ms)).(ended := |Heeded(ms)| < |ms|)
    decreases |ms|
  {
    if ms != [] && !ms[0].Leave? {
      assert Heeded(ms) == [ms[0]] + Heeded(ms[1..]);
      MeaningOfHeeded(Meaning(r, ms[0]), ms[1..]);
    }
  }

  lemma {:induction false} MeaningOfEcho(c: Codec, blocks: seq<seq<byte>>, r: Routing, ms: seq<Message>)
    ensures MeaningOfAll(r, EchoAll(c, blocks, ms)) == MeaningOfAll(r, ms)
    decreases |ms|
  {
    if ms != [] {
      var rest := EchoAll(c, BlocksAfter(blocks, ms[0]), ms[1..]);
      assert ([Echo(c, blocks, ms[0])] + rest)[1..] == rest;
      MeaningOfEcho(c, BlocksAfter(blocks, ms[0]), Meaning(r, ms[0]), ms[1..]);
    }
  }

  /** For any messages, any codec within its contract, and any way the bytes
      were cut into reads, the loop ends where the messages say, as long as no
      stream is opened after a HEADERS frame. */
  method ServeClient(c: Codec, ms: seq<Message>, hasStdin: bool, incoming: seq<seq<byte>>) returns (routing: Routing)
    requires Inverts(c) && AllSayable(ms) && !OpenAfterHint(Heeded(ms))
    requires (forall chunk <- incoming :: Read(chunk)) && Flatten(incoming) == SerializeAll(ClientFrames(c, [], ms))
    ensures routing == MeaningOfAll(Start(hasStdin), ms)
  {
    var reader := new FrameReader(incoming, false);
    var server := new ExecReadLoop(c, hasStdin);
    ConversationDecodes(c, ms);
    LoopFollowsMessages(c, server.State(), ClientFrames(c, [], ms));
    MeaningOfHeeded(Start(hasStdin), ms);
    MeaningOfHeeded(Start(hasStdin), HearAll(c, [], ClientFrames(c, [], ms)));
    MeaningOfEcho(c, [], Start(hasStdin), Heeded(ms));
    server.Run(reader);
    routing := server.State().routing;
  }

  // ---------------------------------------------------------------------
  // The two maps
  // ---------------------------------------------------------------------

  predicate Opens(ms: seq<Message>, i: nat, id: u32, role: Role) {
    i < |ms| && ms[i].Open? && ms[i].id == id && RoleOf(ms[i].headers) == role
  }

  /** No message makes the loop stop. */
  predicate Stays(ms: seq<Message>) { forall m <- ms :: !m.Leave? }

  /** Each id is opened for one role, and each role the loop knows under one
      id. */
  predicate OpenedOnce(ms: seq<Message>) {
    forall i, j :: 0 <= i < |ms| && 0 <= j < |ms| && ms[i].Open? && ms[j].Open? ==> OneOpening(ms[i], ms[j])
  }

  predicate OneOpening(a: Message, b: Message)
    requires a.Open? && b.Open?
  {
    && (a.id == b.id ==> RoleOf(a.headers) == RoleOf(b.headers))
    && (RoleOf(a.headers) == RoleOf(b.headers) != E.Other ==> a.id == b.id)
  }

  predicate MutuallyInverse(r: Routing) {
    && (forall id <- r.roles :: r.roles[id] != E.Other ==> r.roles[id] in r.byRole && r.byRole[r.roles[id]] == id)
    && (forall role <- r.byRole :: r.byRole[role] in r.roles && r.roles[r.byRole[role]] == role)
  }

  lemma {:induction false} MeaningAppend(r: Routing, ms: seq<Message>, m: Message)
    requires Stays(ms) && !r.ended
    ensures !MeaningOfAll(r, ms).ended
    ensures MeaningOfAll(r, ms + [m]) == Meaning(MeaningOfAll(r, ms), m)
    decreases |ms|
  {
    if ms == [] {
      assert ms + [m] == [m] && [m][1..] == [];
    } else {
      assert (ms + [m])[1..] == ms[1..] + [m];
      MeaningAppend(Meaning(r, ms[0]), ms[1..], m);
    }
  }

  /** `roles` gives a stream the role of its last opening, and `by_role` a role
      the stream of its last opening. */
  lemma {:induction false} MapsKnowLastOpening(hasStdin: bool, ms: seq<Message>, i: nat, id: u32, role: Role)
    requires Opens(Heeded(ms), i, id, role)
    ensures KnowsLast(MeaningOfAll(Start(hasStdin), ms), Heeded(ms), i, id, role)
  {
    MeaningOfHeeded(Start(hasStdin), ms);
    LastOpeningIsKnown(hasStdin, Heeded(ms), i, id, role);
  }

  lemma {:induction false} LastOpeningIsKnown(hasStdin: bool, ms: seq<Message>, i: nat, id: u32, role: Role)
    requires Stays(ms) && Opens(ms, i, id, role)
    ensures KnowsLast(MeaningOfAll(Start(hasStdin), ms), ms, i, id, role)
    decreases |ms|
  {
    var front, m := ms[..|ms| - 1], ms[|ms| - 1];
    assert ms == front + [m];
    MeaningAppend(Start(hasStdin), front, m);
    if i < |front| {
      LastOpeningIsKnown(hasStdin, front, i, id, role);
      TurnKeepsKnowing(MeaningOfAll(Start(hasStdin), front), front, m, i, id, role);
    }
  }

  /** Unless opened again after message i, the stream has that role and the
      role that stream. */
  predicate KnowsLast(r: Routing, ms: seq<Message>, i: nat, id: u32, role: Role) {
    && ((forall k :: i < k < |ms| && ms[k].Open? ==> ms[k].id != id) ==> id in r.roles && r.roles[id] == role)
    && ((forall k :: i < k < |ms| && ms[k].Open? ==> RoleOf(ms[k].headers) != role)
          ==> role in r.byRole && r.byRole[role] == id)
  }

  lemma {:induction false} TurnKeepsKnowing(r: Routing, ms: seq<Message>, m: Message, i: nat, id: u32, role: Role)
    requires i < |ms| && KnowsLast(r, ms, i, id, role)
    ensures KnowsLast(Meaning(r, m), ms + [m], i, id, role)
  {
    var more := ms + [m];
    assert more[|ms|] == m && forall k :: i < k < |ms| ==> more[k] == ms[k];
  }

  /** The maps hold the opened streams and nothing else. */
  ghost predicate HoldOpenings(r: Routing, ms: seq<Message>) {
    && (forall id <- r.roles :: exists i: nat :: Opens(ms, i, id, r.roles[id]))
    && (forall i :: 0 <= i < |ms| && ms[i].Open? ==> ms[i].id in r.roles && r.roles[ms[i].id] == RoleOf(ms[i].headers))
  }

  lemma {:induction false} OpenKeepsHolding(r: Routing, ms: seq<Message>, m: Message)
    requires HoldOpenings(r, ms) && OpenedOnce(ms + [m]) && m.Open?
    ensures HoldOpenings(Opened(r, m.id, RoleOf(m.headers)), ms + [m])
  {
    var r', more := Opened(r, m.id, RoleOf(m.headers)), ms + [m];
    assert Opens(more, |ms|, m.id, RoleOf(m.headers));
    forall id | id in r'.roles
      ensures exists i: nat :: Opens(more, i, id, r'.roles[id])
    {
      if id != m.id {
        var i: nat :| Opens(ms, i, id, r.roles[id]);
        assert Opens(more, i, id, r'.roles[id]);
      }
    }
    forall i | 0 <= i < |more| && more[i].Open?
      ensures more[i].id in r'.roles && r'.roles[more[i].id] == RoleOf(more[i].headers)
    {
      if i < |ms| { assert more[i] == ms[i] && more[|ms|] == m && OneOpening(more[i], more[|ms|]); }
    }
  }

  lemma {:induction false} OtherKeepsHolding(r: Routing, r': Routing, ms: seq<Message>, m: Message)
    requires HoldOpenings(r, ms) && !m.Open? && r'.roles == r.roles
    ensures HoldOpenings(r', ms + [m])
  {
    forall id | id in r'.roles
      ensures exists i: nat :: Opens(ms + [m], i, id, r'.roles[id])
    {
      var i: nat :| Opens(ms, i, id, r.roles[id]);
      assert Opens(ms + [m], i, id, r'.roles[id]);
    }
  }

  lemma {:induction false} OpenKeepsInverse(r: Routing, ms: seq<Message>, m: Message)
    requires HoldOpenings(r, ms) && MutuallyInverse(r) && OpenedOnce(ms + [m]) && m.Open?
    ensures MutuallyInverse(Opened(r, m.id, RoleOf(m.headers)))
  {
    var more := ms + [m];
    assert more[|ms|] == m;
    forall id | id in r.roles
      ensures id == m.id ==> r.roles[id] == RoleOf(m.headers)
      ensures r.roles[id] == RoleOf(m.headers) != E.Other ==> id == m.id
    {
      var i: nat :| Opens(ms, i, id, r.roles[id]);
      assert more[i] == ms[i] && OneOpening(more[i], more[|ms|]);
    }
  }

  lemma FrontOpenedOnce(ms: seq<Message>, m: Message)
    requires OpenedOnce(ms + [m])
    ensures OpenedOnce(ms)
  {
    forall i, j | 0 <= i < |ms| && 0 <= j < |ms| && ms[i].Open? && ms[j].Open?
      ensures OneOpening(ms[i], ms[j])
    {
      assert (ms + [m])[i] == ms[i] && (ms + [m])[j] == ms[j];
    }
  }

  /** With each role opened once, the two maps hold exactly the opened streams
      and are inverse to each other. */
  lemma {:induction false} MapsAreInverse(hasStdin: bool, ms: seq<Message>)
    requires OpenedOnce(Heeded(ms))
    ensures HoldOpenings(MeaningOfAll(Start(hasStdin), ms), Heeded(ms))
    ensures MutuallyInverse(MeaningOfAll(Start(hasStdin), ms))
  {
    MeaningOfHeeded(Start(hasStdin), ms);
    InverseSoFar(hasStdin, Heeded(ms));
  }

  lemma {:induction false} InverseSoFar(hasStdin: bool, ms: seq<Message>)
    requires Stays(ms) && OpenedOnce(ms)
    ensures HoldOpenings(MeaningOfAll(Start(hasStdin), ms), ms)
    ensures MutuallyInverse(MeaningOfAll(Start(hasStdin), ms))
    decreases |ms|
  {
    if ms != [] {
      var front, m := ms[..|ms| - 1], ms[|ms| - 1];
      assert ms == front + [m];
      MeaningAppend(Start(hasStdin), front, m);
      FrontOpenedOnce(front, m);
      InverseSoFar(hasStdin, front);
      var r := MeaningOfAll(Start(hasStdin), front);
      TurnKeepsMaps(r, front, m);
    }
  }

  lemma {:induction false} TurnKeepsMaps(r: Routing, ms: seq<Message>, m: Message)
    requires HoldOpenings(r, ms) && MutuallyInverse(r) && OpenedOnce(ms + [m])
    ensures HoldOpenings(Meaning(r, m), ms + [m])
    ensures MutuallyInverse(Meaning(r, m))
  {
    if m.Open? {
      OpenKeepsHolding(r, ms, m);
      OpenKeepsInverse(r, ms, m);
    } else {
      OtherKeepsHolding(r, Meaning(r, m), ms, m);
    }
  }

  // ---------------------------------------------------------------------
  // The roles by name
  // ---------------------------------------------------------------------

  /** The first "streamType" header, in any case, has this value. */
  predicate NamesType(headers: seq<H.Header>, v: Option<seq<byte>>) {
    H.FirstValue(headers, [115, 116, 114, 101, 97, 109, 116, 121, 112, 101], [83, 84, 82, 69, 65, 77, 84, 89, 80, 69], v)
  }

  /** "stdin", "stdout", "stderr", "error" and "resize" */
  predicate Word(v: Option<seq<byte>>, role: Role) {
    match role
    case Stdin => v == Some([115, 116, 100, 105, 110])
    case Stdout => v == Some([115, 116, 100, 111, 117, 116])
    case Stderr => v == Some([115, 116, 100, 101, 114, 114])
    case Error => v == Some([101, 114, 114, 111, 114])
    case Resize => v == Some([114, 101, 115, 105, 122, 101])
    case Other => false
  }

  predicate Stands(v: Option<seq<byte>>, role: Role) {
    if role == E.Other then forall r: Role :: !Word(v, r) else Word(v, role)
  }

  lemma TypeIsSpelled()
    ensures H.Spellings(STREAM_TYPE, [115, 116, 114, 101, 97, 109, 116, 121, 112, 101], [83, 84, 82, 69, 65, 77, 84, 89, 80, 69])
  {
  }

  lemma {:induction false} NamedRole(headers: seq<H.Header>, v: Option<seq<byte>>)
    requires NamesType(headers, v)
    ensures Stands(v, RoleOf(headers))
  {
    TypeIsSpelled();
    H.GetIsFirstValue(headers, STREAM_TYPE, [115, 116, 114, 101, 97, 109, 116, 121, 112, 101], [83, 84, 82, 69, 65, 77, 84, 89, 80, 69], v);
  }

  /** In every conversation a stream has the role that the first "streamType"
      header of its last opening names, and none of the five when that header
      is missing or says anything else. */
  lemma {:induction false} RolesAreNamed(hasStdin: bool, ms: seq<Message>, i: nat, v: Option<seq<byte>>)
    requires i < |Heeded(ms)| && ms[i].Open? && NamesType(ms[i].headers, v)
    requires forall k :: i < k < |Heeded(ms)| && ms[k].Open? ==> ms[k].id != ms[i].id
    ensures var r := MeaningOfAll(Start(hasStdin), ms);
      ms[i].id in r.roles && Stands(v, r.roles[ms[i].id])
  {
    var h := Heeded(ms);
    assert h == ms[..|h|];
    NamedRole(ms[i].headers, v);
    MapsKnowLastOpening(hasStdin, ms, i, ms[i].id, RoleOf(ms[i].headers));
  }

  /** A stream whose headers cannot be read is acknowledged and routed like
      every other, but for none of the five roles. */
  lemma {:induction false} UnreadableOpening(c: Codec, l: Loop, id: u32, assoc: u32, priority: byte, flags: byte, block: seq<byte>)
    requires forall hs :: H.Encodable(hs) ==> c.dec(l.seen, block).None? || !(H.Block(hs) <= c.dec(l.seen, block).value)
    ensures var r := Handle(c, l, SynStream(id, assoc, priority, flags, block)).routing;
      r == l.routing.(roles := l.routing.roles[id := E.Other], byRole := l.routing.byRole[E.Other := id],
                      answers := l.routing.answers + [Acknowledged(id)])
  {
    HeadersExactly(c, l.seen, block, HeadersOf(c, l.seen, block));
    NamedRole([], None);
  }

  // ---------------------------------------------------------------------
  // The answers
  // ---------------------------------------------------------------------

  /** What the messages ask for. */
  function Asked(ms: seq<Message>): seq<Answer> {
    if ms == [] then []
    else
      Asked(ms[..|ms| - 1]) + match ms[|ms| - 1]
        case Open(id, _, _, _, _) => [Acknowledged(id)]
        case Probe(id) => [Ponged(id)]
        case _ => []
  }

  lemma {:induction false} AnswersSoFar(hasStdin: bool, ms: seq<Message>)
    requires Stays(ms)
    ensures MeaningOfAll(Start(hasStdin), ms).answers == Asked(ms)
  {
    if ms != [] {
      var front, m := ms[..|ms| - 1], ms[|ms| - 1];
      assert ms == front + [m];
      AnswersSoFar(hasStdin, front);
      MeaningAppend(Start(hasStdin), front, m);
    }
  }

  /** Each stream that is opened is acknowledged and each ping comes back, once,
      with its own number, and in the client's order. */
  lemma {:induction false} ClientIsAnswered(hasStdin: bool, ms: seq<Message>)
    ensures MeaningOfAll(Start(hasStdin), ms).answers == Asked(Heeded(ms))
  {
    MeaningOfHeeded(Start(hasStdin), ms);
    AnswersSoFar(hasStdin, Heeded(ms));
  }

  // ---------------------------------------------------------------------
  // Standard input
  // ---------------------------------------------------------------------

  /** The bytes sent on one stream up to its first FIN, and whether that FIN is
      still to come; nothing when the session has no standard input. */
  function SentOn(hasStdin: bool, ms: seq<Message>, id: u32): (seq<byte>, bool) {
    if ms == [] then ([], hasStdin)
    else
      var (data, stillOpen) := SentOn(hasStdin, ms[..|ms| - 1], id);
      var m := ms[|ms| - 1];
      if m.Input? && m.id == id then
        (if stillOpen then data + m.data else data, stillOpen && m.flags % 2 == 0)
      else (data, stillOpen)
  }

  /** At every point of a conversation, the process has read what came on its
      own stream, in order, up to the FIN, and nothing from any other stream. */
  lemma {:induction false} StdinIsItsStream(hasStdin: bool, ms: seq<Message>, i: nat, id: u32, n: nat)
    requires OpenedOnce(Heeded(ms)) && Opens(Heeded(ms), i, id, E.Stdin) && n <= |ms|
    requires forall k :: 0 <= k < i && Heeded(ms)[k].Input? ==> Heeded(ms)[k].id != id
    ensures var r := MeaningOfAll(Start(hasStdin), ms[..n]);
      (r.stdin, r.stdinOpen) == SentOn(hasStdin, Heeded(ms[..n]), id)
  {
    MeaningOfHeeded(Start(hasStdin), ms[..n]);
    HeededPrefix(ms, n);
    StdinSoFar(hasStdin, Heeded(ms), i, id, |Heeded(ms[..n])|);
  }

  lemma {:induction false} StdinSoFar(hasStdin: bool, ms: seq<Message>, i: nat, id: u32, n: nat)
    requires Stays(ms) && OpenedOnce(ms) && Opens(ms, i, id, E.Stdin) && n <= |ms|
    requires forall k :: 0 <= k < i && ms[k].Input? ==> ms[k].id != id
    ensures var r := MeaningOfAll(Start(hasStdin), ms[..n]);
      (r.stdin, r.stdinOpen) == SentOn(hasStdin, ms[..n], id)
  {
    if n > 0 {
      var front, m := ms[..n - 1], ms[n - 1];
      assert ms[..n] == front + [m] && ms[..n][..n - 1] == front;
      StdinSoFar(hasStdin, ms, i, id, n - 1);
      MeaningAppend(Start(hasStdin), front, m);
      if m.Input? { InputGoesToStdin(hasStdin, ms, i, id, n - 1); }
    }
  }

  /** The loop takes a message for standard input exactly when it came on the
      stream opened for it. */
  lemma {:induction false} InputGoesToStdin(hasStdin: bool, ms: seq<Message>, i: nat, id: u32, n: nat)
    requires Stays(ms) && OpenedOnce(ms) && Opens(ms, i, id, E.Stdin) && n < |ms| && ms[n].Input?
    requires forall k :: 0 <= k < i && ms[k].Input? ==> ms[k].id != id
    ensures var r := MeaningOfAll(Start(hasStdin), ms[..n]);
      ms[n].id == id <==> ms[n].id in r.roles && r.roles[ms[n].id] == E.Stdin
  {
    var front := ms[..n];
    forall a, b | 0 <= a < n && 0 <= b < n && front[a].Open? && front[b].Open?
      ensures OneOpening(front[a], front[b])
    {
      assert front[a] == ms[a] && front[b] == ms[b];
    }
    InverseSoFar(hasStdin, front);
    var r := MeaningOfAll(Start(hasStdin), front);
    var x := ms[n].id;
    if x == id {
      assert i != n && front[i] == ms[i];
    }
  }

  // ---------------------------------------------------------------------
  // A header block outside a SYN_STREAM
  // ---------------------------------------------------------------------

  /** Where the loop stands once it handled all these messages. */
  function Served(c: Codec, hasStdin: bool, ms: seq<Message>): Routing {
    HandleAll(c, Loop(Start(hasStdin), []), ClientFrames(c, [], ms)).routing
  }

  /** Right after an opening, the stream has the role of the headers heard in
      it. */
  lemma {:induction false} HeardRoleIsGiven(c: Codec, hasStdin: bool, ms: seq<Message>, m: Message)
    requires AllSayable(ms + [m]) && Stays(ms + [m]) && m.Open?
    requires HearAll(c, [], ClientFrames(c, [], ms + [m]))[|ms|].Open?
    ensures var heard, r := HearAll(c, [], ClientFrames(c, [], ms + [m]))[|ms|], Served(c, hasStdin, ms + [m]);
      heard.id in r.roles && r.roles[heard.id] == RoleOf(heard.headers)
  {
    var heard := HearAll(c, [], ClientFrames(c, [], ms + [m]));
    LoopFollowsMessages(c, Loop(Start(hasStdin), []), ClientFrames(c, [], ms + [m]));
    assert heard == heard[..|ms|] + [heard[|ms|]];
    StaysWhenHeard(c, ms + [m]);
    MeaningAppend(Start(hasStdin), heard[..|ms|], heard[|ms|]);
  }

  lemma StaysWhenHeard(c: Codec, ms: seq<Message>)
    requires AllSayable(ms) && Stays(ms)
    ensures Stays(HearAll(c, [], ClientFrames(c, [], ms)))
  {
    var heard := HearAll(c, [], ClientFrames(c, [], ms));
    forall i | 0 <= i < |heard| ensures !heard[i].Leave? {
      var _, _ := HeardAt(c, [], [], ms, i);
      assert ms[i] in ms;
    }
  }

  /** Header lists that do not name the given role. */
  function OtherHeaders(role: Role): seq<H.Header> {
    if role == E.Other then [H.AsciiHeader(STREAM_TYPE, STDIN_NAME)] else []
  }

  lemma {:induction false} OtherHeadersDiffer(role: Role)
    ensures H.Encodable(OtherHeaders(role)) && RoleOf(OtherHeaders(role)) != role
  {
    if role == E.Other { NamesStdin(H.AsciiHeader(STREAM_TYPE, STDIN_NAME)); }
  }

  lemma NamesStdin(h: H.Header)
    requires h.name == STREAM_TYPE && h.value == STDIN_NAME
    ensures H.Encodable([h]) && RoleOf([h]) == E.Stdin
  {
    H.GetFindsFirst([h], STREAM_TYPE, 0);
  }

  /** The stream that message i opens gets the role its headers name. */
  predicate RoleArrives(c: Codec, hasStdin: bool, ms: seq<Message>, i: nat)
    requires i < |ms| && ms[i].Open?
  {
    var r := Served(c, hasStdin, ms[..i + 1]);
    ms[i].id in r.roles && r.roles[ms[i].id] == RoleOf(ms[i].headers)
  }

  predicate RolesArrive(c: Codec, hasStdin: bool, ms: seq<Message>) {
    forall i :: 0 <= i < |ms| && ms[i].Open? ==> RoleArrives(c, hasStdin, ms, i)
  }

  /** A block compressed into a HEADERS frame is never fed to the decompressor:
      for every stream opened afterwards there is a codec, within its contract,
      that gives it another role than its headers name. */
  lemma {:induction false} HeadersFrameLosesRole(hasStdin: bool, ms: seq<Message>, i: nat, j: nat) returns (c: Codec)
    requires AllSayable(ms) && Stays(ms) && i < j < |ms| && ms[i].Hint? && ms[j].Open?
    ensures Inverts(c) && !RoleArrives(c, hasStdin, ms, j)
  {
    var front, m := ms[..j], ms[j];
    assert ms[..j + 1] == front + [m];
    OtherHeadersDiffer(RoleOf(m.headers));
    c := OpeningIsMisheard(front + [m], i, j, OtherHeaders(RoleOf(m.headers)));
    HeardRoleIsGiven(c, hasStdin, front, m);
  }

  /** Every codec within its contract gives every stream its role, if and only
      if no stream is opened after a HEADERS frame. */
  lemma {:induction false} RolesArriveExactly(hasStdin: bool, ms: seq<Message>)
    requires AllSayable(ms)
    ensures (forall c: Codec | Inverts(c) :: RolesArrive(c, hasStdin, Heeded(ms))) <==> !OpenAfterHint(Heeded(ms))
  {
    var h := Heeded(ms);
    assert AllSayable(h);
    if OpenAfterHint(h) {
      var i, j :| 0 <= i < j < |h| && h[i].Hint? && h[j].Open?;
      var c := HeadersFrameLosesRole(hasStdin, h, i, j);
      assert Inverts(c) && !RolesArrive(c, hasStdin, h);
    } else {
      forall c: Codec, i: nat | Inverts(c) && i < |h| && h[i].Open?
        ensures RoleArrives(c, hasStdin, h, i)
      {
        var front, m := h[..i], h[i];
        assert h[..i + 1] == front + [m];
        MessagesAreHeard(c, [], front + [m]);
        HeardRoleIsGiven(c, hasStdin, front, m);
      }
    }
  }
}

/** Which forwarded connection gets which bytes, over whole conversations. */
module PortForwardSafety {

  import opened Options
  import opened Bytes
  import opened Frames
  import opened Messages
  import opened PortForwarding
  import R = ReadLoops

  // ---------------------------------------------------------------------
  // What the client does with its data streams
  // ---------------------------------------------------------------------

  predicate DataOpen(m: Message) { m.Open? && IsData(m.headers) }

  /** The part of a turn that says when data streams begin and end. */
  datatype Mark = Opening(id: u32, key: Key, dialed: bool) | Fin(id: u32) | Gone

  function MarkOf(t: Turn): Option<Mark> {
    match t.m
    case Open(id, headers, _, _, _) => if IsData(headers) then Some(Opening(id, KeyOf(headers), t.dialed)) else None
    case Input(id, flags, _) => if R.HasFin(flags) then Some(Fin(id)) else None
    case Leave(_) => Some(Gone)
    case _ => None
  }

  /** The openings and FINs of a conversation: all but its bytes. */
  function Skeleton(ts: seq<Turn>): seq<Mark> {
    if ts == [] then []
    else
      var k := MarkOf(ts[|ts| - 1]);
      Skeleton(ts[..|ts| - 1]) + if k.Some? then [k.value] else []
  }

  /** A dialed data stream as the client sees it: open until its FIN. */
  datatype Stream = Stream(id: u32, key: Key, open: bool)

  /** The dialed streams in order, the key each id was last opened under, and
      whether the client left. */
  datatype Outline = Outline(streams: seq<Stream>, routes: map<u32, Key>, left: bool)

  function Closed(streams: seq<Stream>, id: u32): (r: seq<Stream>)
    ensures |r| == |streams|
    ensures forall c :: 0 <= c < |r| ==> r[c] == streams[c].(open := streams[c].open && streams[c].id != id)
  {
    seq(|streams|, c requires 0 <= c < |streams| => streams[c].(open := streams[c].open && streams[c].id != id))
  }

  function Traced(o: Outline, k: Mark): Outline {
    if o.left then o
    else match k
      case Opening(id, key, dialed) =>
        o.(routes := o.routes[id := key], streams := if dialed then o.streams + [Stream(id, key, true)] else o.streams)
      case Fin(id) => o.(streams := Closed(o.streams, id))
      case Gone => o.(left := true)
  }

  function OutlineOf(ks: seq<Mark>): Outline {
    if ks == [] then Outline([], map[], false) else Traced(OutlineOf(ks[..|ks| - 1]), ks[|ks| - 1])
  }

  function Sketch(ts: seq<Turn>): Outline { OutlineOf(Skeleton(ts)) }

  /** The outline after one more turn. */
  function Drawn(o: Outline, t: Turn): Outline {
    match MarkOf(t) case None => o case Some(k) => Traced(o, k)
  }

  lemma SketchStep(ts: seq<Turn>)
    requires ts != []
    ensures Sketch(ts) == Drawn(Sketch(ts[..|ts| - 1]), ts[|ts| - 1])
  {
    var front := Skeleton(ts[..|ts| - 1]);
    match MarkOf(ts[|ts| - 1])
    case None => assert front + [] == front;
    case Some(k) => assert (front + [k])[..|front|] == front;
  }

  /** The bytes each dialed stream was sent from its opening to its FIN. */
  function Poured(before: seq<seq<byte>>, o: Outline, t: Turn): (r: seq<seq<byte>>)
    requires |before| == |o.streams|
    ensures |r| == |Drawn(o, t).streams|
  {
    if o.left then before
    else if t.m.Input? then
      seq(|before|, c requires 0 <= c < |before| =>
        if o.streams[c].open && o.streams[c].id == t.m.id then before[c] + t.m.data else before[c])
    else if DataOpen(t.m) && t.dialed then before + [[]]
    else before
  }

  function Sent(ts: seq<Turn>): (r: seq<seq<byte>>)
    ensures |r| == |Sketch(ts).streams|
  {
    if ts == [] then []
    else
      SketchStep(ts);
      Poured(Sent(ts[..|ts| - 1]), Sketch(ts[..|ts| - 1]), ts[|ts| - 1])
  }

  // ---------------------------------------------------------------------
  // Where the loop sends the bytes
  // ---------------------------------------------------------------------

  /** The last stream dialed under a key. */
  function Latest(streams: seq<Stream>, key: Key): (c: Option<nat>)
    ensures c.Some? ==> c.value < |streams| && streams[c.value].key == key
  {
    if streams == [] then None
    else if streams[|streams| - 1].key == key then Some(|streams| - 1)
    else Latest(streams[..|streams| - 1], key)
  }

  lemma {:induction false} ClosedKeepsLatest(streams: seq<Stream>, id: u32, key: Key)
    ensures Latest(Closed(streams, id), key) == Latest(streams, key)
  {
    if streams != [] {
      assert Closed(streams, id)[..|streams| - 1] == Closed(streams[..|streams| - 1], id);
      ClosedKeepsLatest(streams[..|streams| - 1], id, key);
    }
  }

  lemma LatestAppend(streams: seq<Stream>, s: Stream, key: Key)
    ensures Latest(streams + [s], key) == if s.key == key then Some(|streams|) else Latest(streams, key)
  {
    assert (streams + [s])[..|streams|] == streams;
  }

  /** The stream whose connection gets what comes on an id. */
  function Target(o: Outline, id: u32): Option<nat> {
    if id in o.routes then Latest(o.streams, o.routes[id]) else None
  }

  function PairConn(s: Forwarding, key: Key): Option<nat> {
    if key in s.pairs then s.pairs[key].conn else None
  }

  ghost predicate Follows(s: Forwarding, o: Outline) {
    && s.ended == o.left && s.dataRoute == o.routes && |s.conns| == |o.streams|
    && forall key :: PairConn(s, key) == Latest(o.streams, key)
  }

  lemma {:induction false} StepFollows(s: Forwarding, o: Outline, t: Turn)
    requires Follows(s, o) && !s.ended
    ensures Follows(Step(s, t.m, t.dialed), Drawn(o, t))
  {
    var s', o' := Step(s, t.m, t.dialed), Drawn(o, t);
    forall key ensures PairConn(s', key) == Latest(o'.streams, key) {
      assert PairConn(s, key) == Latest(o.streams, key);
      if DataOpen(t.m) && t.dialed {
        LatestAppend(o.streams, Stream(t.m.id, KeyOf(t.m.headers), true), key);
      } else if t.m.Input? {
        ClosedKeepsLatest(o.streams, t.m.id, key);
      }
    }
  }

  lemma {:induction false} AfterFollows(ts: seq<Turn>)
    ensures Follows(After(ts), Sketch(ts))
  {
    if ts != [] {
      AfterFollows(ts[..|ts| - 1]);
      SketchStep(ts);
      if !After(ts[..|ts| - 1]).ended { StepFollows(After(ts[..|ts| - 1]), Sketch(ts[..|ts| - 1]), ts[|ts| - 1]); }
    }
  }

  lemma RoutedToTarget(s: Forwarding, o: Outline, id: u32)
    requires Follows(s, o) && Consistent(s)
    ensures ConnFor(s, id) == Target(o, id)
  {
    if id in o.routes { assert PairConn(s, o.routes[id]) == Target(o, id); }
  }

  /** In every conversation the k-th connection is dialed for the k-th dialed
      stream, and what comes on an id goes to the connection of the last stream
      dialed under the key that id was last opened under. */
  lemma {:induction false} StreamsArePlaced(ts: seq<Turn>, id: u32)
    ensures |After(ts).conns| == |Sketch(ts).streams|
    ensures ConnFor(After(ts), id) == Target(Sketch(ts), id)
  {
    AfterFollows(ts);
    AfterIsConsistent(ts);
    RoutedToTarget(After(ts), Sketch(ts), id);
  }

  // ---------------------------------------------------------------------
  // Isolation, exactly
  // ---------------------------------------------------------------------

  /** Each connection holds the bytes of its own stream, and is shut by that
      stream's FIN alone. */
  predicate Holds(s: Forwarding, o: Outline, sent: seq<seq<byte>>) {
    && |s.conns| == |o.streams| == |sent|
    && forall c :: 0 <= c < |sent| ==> s.conns[c].written == sent[c] && s.conns[c].shut == !o.streams[c].open
  }

  predicate Isolated(ts: seq<Turn>) { Holds(After(ts), Sketch(ts), Sent(ts)) }

  /** What comes on an id reaches an open stream's connection if and only if it
      is that stream's id. */
  predicate Sound(o: Outline) {
    && (forall c :: 0 <= c < |o.streams| && o.streams[c].open ==> Target(o, o.streams[c].id) == Some(c))
    && (forall id <- o.routes :: Target(o, id).Some? && o.streams[Target(o, id).value].open ==>
          o.streams[Target(o, id).value].id == id)
  }

  /** When a stream may be opened: if its dial succeeds, its id is not that of
      an open stream, and no other id leads to its key; if it fails, its key
      leads to the open stream with its id, when there is one, and to no open
      stream otherwise. */
  predicate SafeOpening(o: Outline, id: u32, key: Key, dialed: bool) {
    if dialed then
      && (forall c :: 0 <= c < |o.streams| && o.streams[c].open ==> o.streams[c].id != id)
      && (forall other <- o.routes :: o.routes[other] == key ==> other == id)
    else
      forall c :: 0 <= c < |o.streams| && o.streams[c].open ==>
        (o.streams[c].id == id <==> Latest(o.streams, key) == Some(c))
  }

  predicate SafeTurn(o: Outline, t: Turn) {
    DataOpen(t.m) && !o.left ==> SafeOpening(o, t.m.id, KeyOf(t.m.headers), t.dialed)
  }

  predicate Safe(ks: seq<Mark>) {
    ks == [] || (
      var front, k := ks[..|ks| - 1], ks[|ks| - 1];
      Safe(front) && (k.Opening? && !OutlineOf(front).left ==> SafeOpening(OutlineOf(front), k.id, k.key, k.dialed)))
  }

  lemma {:induction false} DialedOpeningIsSound(o: Outline, id: u32, key: Key)
    requires Sound(o) && !o.left
    ensures Sound(Traced(o, Opening(id, key, true))) <==> SafeOpening(o, id, key, true)
  {
    var n, o' := |o.streams|, Traced(o, Opening(id, key, true));
    forall k ensures Latest(o'.streams, k) == if k == key then Some(n) else Latest(o.streams, k) {
      LatestAppend(o.streams, Stream(id, key, true), k);
    }
    assert forall c :: 0 <= c < n ==> o'.streams[c] == o.streams[c];
    assert o'.routes[id] == key && o'.streams[n] == Stream(id, key, true);
    forall y | y in o.routes && y != id
      ensures o'.routes[y] == o.routes[y]
    {
    }
  }

  lemma {:induction false} FailedOpeningIsSound(o: Outline, id: u32, key: Key)
    requires Sound(o) && !o.left
    ensures Sound(Traced(o, Opening(id, key, false))) <==> SafeOpening(o, id, key, false)
  {
    var o' := Traced(o, Opening(id, key, false));
    assert o'.routes[id] == key && Target(o', id) == Latest(o.streams, key);
    forall y | y != id
      ensures Target(o', y) == Target(o, y)
    {
    }
  }

  lemma {:induction false} FinKeepsSound(o: Outline, id: u32)
    requires Sound(o)
    ensures Sound(o.(streams := Closed(o.streams, id)))
  {
    var o' := o.(streams := Closed(o.streams, id));
    forall y ensures Target(o', y) == Target(o, y) {
      if y in o.routes { ClosedKeepsLatest(o.streams, id, o.routes[y]); }
    }
  }

  lemma {:induction false} SafeIsSound(ks: seq<Mark>)
    requires Safe(ks)
    ensures Sound(OutlineOf(ks))
  {
    if ks != [] {
      var o, k := OutlineOf(ks[..|ks| - 1]), ks[|ks| - 1];
      SafeIsSound(ks[..|ks| - 1]);
      if !o.left { SafeMarkKeepsSound(o, k); }
    }
  }

  lemma {:induction false} SafeMarkKeepsSound(o: Outline, k: Mark)
    requires Sound(o) && !o.left && (k.Opening? ==> SafeOpening(o, k.id, k.key, k.dialed))
    ensures Sound(Traced(o, k))
  {
    match k
    case Opening(id, key, dialed) => if dialed { DialedOpeningIsSound(o, id, key); } else { FailedOpeningIsSound(o, id, key); }
    case Fin(id) => FinKeepsSound(o, id);
    case Gone =>
      forall y ensures Target(o.(left := true), y) == Target(o, y) {}
  }

  lemma SafeFront(ts: seq<Turn>)
    requires ts != [] && Safe(Skeleton(ts))
    ensures Safe(Skeleton(ts[..|ts| - 1]))
    ensures SafeTurn(Sketch(ts[..|ts| - 1]), ts[|ts| - 1])
  {
    var front := Skeleton(ts[..|ts| - 1]);
    match MarkOf(ts[|ts| - 1])
    case None => assert front + [] == front;
    case Some(k) => assert (front + [k])[..|front|] == front;
  }

  lemma {:induction false} SafePrefix(ts: seq<Turn>, n: nat)
    requires n <= |ts| && Safe(Skeleton(ts))
    ensures Safe(Skeleton(ts[..n]))
    decreases |ts|
  {
    if n == |ts| {
      assert ts[..n] == ts;
    } else {
      SafeFront(ts);
      SafePrefix(ts[..|ts| - 1], n);
      assert ts[..|ts| - 1][..n] == ts[..n];
    }
  }

  // ---------------------------------------------------------------------
  // Safe openings keep connections apart
  // ---------------------------------------------------------------------

  lemma {:induction false} InputKeepsHolding(s: Forwarding, o: Outline, sent: seq<seq<byte>>, t: Turn)
    requires Holds(s, o, sent) && Sound(o) && !o.left && t.m.Input? && ConnFor(s, t.m.id) == Target(o, t.m.id)
    ensures Holds(Step(s, t.m, t.dialed), Drawn(o, t), Poured(sent, o, t))
  {
    var s', o' := Step(s, t.m, t.dialed), Drawn(o, t);
    forall c | 0 <= c < |sent|
      ensures o'.streams[c].open == (o.streams[c].open && (o.streams[c].id == t.m.id ==> !R.HasFin(t.m.flags)))
      ensures s'.conns[c] == if Target(o, t.m.id) == Some(c) then WrittenTo(s.conns[c], t.m.data, R.HasFin(t.m.flags)) else s.conns[c]
      ensures o.streams[c].open ==> (o.streams[c].id == t.m.id <==> Target(o, t.m.id) == Some(c))
    {
    }
  }

  lemma {:induction false} OpeningKeepsHolding(s: Forwarding, o: Outline, sent: seq<seq<byte>>, t: Turn)
    requires Holds(s, o, sent) && Follows(s, o) && Sound(o) && !o.left && DataOpen(t.m)
    requires SafeOpening(o, t.m.id, KeyOf(t.m.headers), t.dialed)
    ensures Holds(Step(s, t.m, t.dialed), Drawn(o, t), Poured(sent, o, t))
  {
    var key := KeyOf(t.m.headers);
    assert PairConn(s, key) == Latest(o.streams, key);
    if t.dialed && Latest(o.streams, key).Some? {
      var c := Latest(o.streams, key).value;
      assert o.streams[c].open ==> Target(o, o.streams[c].id) == Some(c);
    }
  }

  lemma {:induction false} TurnKeepsHolding(s: Forwarding, o: Outline, sent: seq<seq<byte>>, t: Turn)
    requires Holds(s, o, sent) && Follows(s, o) && Consistent(s) && Sound(o) && SafeTurn(o, t)
    ensures Holds(if s.ended then s else Step(s, t.m, t.dialed), Drawn(o, t), Poured(sent, o, t))
  {
    if !o.left {
      if t.m.Input? {
        RoutedToTarget(s, o, t.m.id);
        InputKeepsHolding(s, o, sent, t);
      } else if DataOpen(t.m) {
        OpeningKeepsHolding(s, o, sent, t);
      }
    }
  }

  /** When every opening is safe, the connections are isolated. */
  lemma {:induction false} SafeIsIsolated(ts: seq<Turn>)
    requires Safe(Skeleton(ts))
    ensures Isolated(ts)
  {
    if ts != [] {
      var front, t := ts[..|ts| - 1], ts[|ts| - 1];
      SafeFront(ts);
      SafeIsIsolated(front);
      SafeIsSound(Skeleton(front));
      AfterFollows(front);
      AfterIsConsistent(front);
      SketchStep(ts);
      TurnKeepsHolding(After(front), Sketch(front), Sent(front), t);
    }
  }

  // ---------------------------------------------------------------------
  // An unsafe opening lets bytes go astray
  // ---------------------------------------------------------------------

  predicate AllSaid(ts: seq<Turn>) { forall t <- ts :: Sayable(t.m) }

  predicate SaidIds(o: Outline) {
    && (forall id <- o.routes :: id < 0x8000_0000)
    && (forall c :: 0 <= c < |o.streams| ==> o.streams[c].id < 0x8000_0000)
  }

  lemma {:induction false} DrawnKeepsSaidIds(o: Outline, t: Turn)
    requires SaidIds(o) && Sayable(t.m)
    ensures SaidIds(Drawn(o, t))
  {
  }

  lemma {:induction false} IdsAreSaid(ts: seq<Turn>)
    requires AllSaid(ts)
    ensures SaidIds(Sketch(ts))
  {
    if ts != [] {
      IdsAreSaid(ts[..|ts| - 1]);
      SketchStep(ts);
      assert ts[|ts| - 1] in ts;
      DrawnKeepsSaidIds(Sketch(ts[..|ts| - 1]), ts[|ts| - 1]);
    }
  }

  lemma {:induction false} UnsafeIsUnsound(ts: seq<Turn>) returns (n: nat)
    requires !Safe(Skeleton(ts))
    ensures n <= |ts| && !Sketch(ts[..n]).left && !Sound(Sketch(ts[..n]))
  {
    var front, t := ts[..|ts| - 1], ts[|ts| - 1];
    if !Safe(Skeleton(front)) {
      n := UnsafeIsUnsound(front);
      assert front[..n] == ts[..n];
    } else {
      n := |ts|;
      SafeIsSound(Skeleton(front));
      UnsafeMark(ts);
      assert ts[..n] == ts;
    }
  }

  lemma {:induction false} UnsafeMark(ts: seq<Turn>)
    requires ts != [] && Safe(Skeleton(ts[..|ts| - 1])) && !Safe(Skeleton(ts)) && Sound(Sketch(ts[..|ts| - 1]))
    ensures !Sketch(ts).left && !Sound(Sketch(ts))
  {
    var front, t := ts[..|ts| - 1], ts[|ts| - 1];
    assert Skeleton(front) + [] == Skeleton(front);
    var k := MarkOf(t).value;
    assert (Skeleton(front) + [k])[..|Skeleton(front)|] == Skeleton(front);
    SketchStep(ts);
    if k.dialed { DialedOpeningIsSound(Sketch(front), k.id, k.key); } else { FailedOpeningIsSound(Sketch(front), k.id, k.key); }
  }

  /** One byte on the right id then shows it. */
  lemma {:induction false} UnsoundIsSeen(ts: seq<Turn>) returns (t: Turn)
    requires AllSaid(ts) && !Sketch(ts).left && !Sound(Sketch(ts)) && Isolated(ts)
    ensures Sayable(t.m) && MarkOf(t).None? && !Isolated(ts + [t])
  {
    var o := Sketch(ts);
    IdsAreSaid(ts);
    if c :| 0 <= c < |o.streams| && o.streams[c].open && Target(o, o.streams[c].id) != Some(c) {
      t := Turn(Input(o.streams[c].id, 0, [0]), false);
      ByteIsMisplaced(ts, t, c);
    } else {
      var id :| id in o.routes && Target(o, id).Some? && o.streams[Target(o, id).value].open && o.streams[Target(o, id).value].id != id;
      t := Turn(Input(id, 0, [0]), false);
      ByteIsMisplaced(ts, t, Target(o, id).value);
    }
  }

  lemma {:induction false} ByteIsMisplaced(ts: seq<Turn>, t: Turn, c: nat)
    requires !Sketch(ts).left && Isolated(ts) && t.m.Input? && t.m.flags == 0 && t.m.data != []
    requires c < |Sketch(ts).streams| && Sketch(ts).streams[c].open
    requires Sketch(ts).streams[c].id == t.m.id <==> Target(Sketch(ts), t.m.id) != Some(c)
    ensures !Isolated(ts + [t])
  {
    var s, o := After(ts), Sketch(ts);
    assert (ts + [t])[..|ts|] == ts;
    SketchStep(ts + [t]);
    AfterFollows(ts);
    StreamsArePlaced(ts, t.m.id);
    assert Sent(ts + [t])[c] == if o.streams[c].id == t.m.id then Sent(ts)[c] + t.m.data else Sent(ts)[c];
  }

  lemma {:induction false} SkeletonOfBoth(a: seq<Turn>, b: seq<Turn>)
    ensures Skeleton(a + b) == Skeleton(a) + Skeleton(b)
    decreases |b|
  {
    if b == [] {
      assert a + b == a;
    } else {
      assert (a + b)[..|a + b| - 1] == a + b[..|b| - 1];
      SkeletonOfBoth(a, b[..|b| - 1]);
    }
  }

  lemma SkeletonOfNothing(t: Turn)
    requires MarkOf(t).None?
    ensures Skeleton([t]) == []
  {
    assert [t][..0] == [];
  }

  /** A turn that opens and ends nothing can be slipped in anywhere. */
  lemma SlipIn(a: seq<Turn>, t: Turn, b: seq<Turn>)
    requires MarkOf(t).None?
    ensures Skeleton(a + [t] + b) == Skeleton(a + b)
  {
    SkeletonOfNothing(t);
    SkeletonOfBoth(a, [t]);
    SkeletonOfBoth(a + [t], b);
    SkeletonOfBoth(a, b);
    assert Skeleton(a) + [] == Skeleton(a);
  }

  predicate Throughout(ts: seq<Turn>) { forall n :: 0 <= n <= |ts| ==> Isolated(ts[..n]) }

  lemma {:induction false} UnsafeGoesAstray(ts: seq<Turn>) returns (us: seq<Turn>)
    requires AllSaid(ts) && !Safe(Skeleton(ts))
    ensures AllSaid(us) && Skeleton(us) == Skeleton(ts) && !Throughout(us)
  {
    var n := UnsafeIsUnsound(ts);
    if Isolated(ts[..n]) {
      var t := UnsoundIsSeen(ts[..n]);
      us := Slipped(ts, n, t);
    } else {
      us := ts;
    }
  }

  lemma Slipped(ts: seq<Turn>, n: nat, t: Turn) returns (us: seq<Turn>)
    requires AllSaid(ts) && n <= |ts| && Sayable(t.m) && MarkOf(t).None? && !Isolated(ts[..n] + [t])
    ensures AllSaid(us) && Skeleton(us) == Skeleton(ts) && !Throughout(us)
  {
    us := ts[..n] + [t] + ts[n..];
    SlipIn(ts[..n], t, ts[n..]);
    assert ts == ts[..n] + ts[n..];
    assert us[..n + 1] == ts[..n] + [t];
  }

  /** Whatever bytes the client sends, and wherever between these openings and
      FINs, at every point each connection holds exactly the bytes of its own
      stream and is shut by that stream's FIN alone, if and only if every
      opening is safe. */
  lemma {:induction false} IsolatedExactlyWhenSafe(ts: seq<Turn>)
    requires AllSaid(ts)
    ensures Safe(Skeleton(ts)) <==>
      forall us: seq<Turn> | AllSaid(us) && Skeleton(us) == Skeleton(ts) :: Throughout(us)
  {
    if Safe(Skeleton(ts)) {
      forall us: seq<Turn>, n | AllSaid(us) && Skeleton(us) == Skeleton(ts) && 0 <= n <= |us|
        ensures Isolated(us[..n])
      {
        SafePrefix(us, n);
        SafeIsIsolated(us[..n]);
      }
    } else {
      var us := UnsafeGoesAstray(ts);
    }
  }

  // ---------------------------------------------------------------------
  // One data stream per key
  // ---------------------------------------------------------------------

  /** No two data streams under one key or under one id. */
  predicate OneDataStreamPerKey(ts: seq<Turn>) {
    forall i, j :: 0 <= i < j < |ts| && DataOpen(ts[i].m) && DataOpen(ts[j].m) ==>
      ts[i].m.id != ts[j].m.id && KeyOf(ts[i].m.headers) != KeyOf(ts[j].m.headers)
  }

  predicate OpenedAs(ts: seq<Turn>, i: nat, id: u32, key: Key) {
    i < |ts| && DataOpen(ts[i].m) && ts[i].m.id == id && KeyOf(ts[i].m.headers) == key
  }

  ghost predicate WasOpened(ts: seq<Turn>, id: u32, key: Key) { exists i: nat :: OpenedAs(ts, i, id, key) }

  /** The ids and keys that the outline knows were opened. */
  ghost predicate Known(o: Outline, ts: seq<Turn>) {
    && (forall id <- o.routes :: WasOpened(ts, id, o.routes[id]))
    && (forall c :: 0 <= c < |o.streams| ==> WasOpened(ts, o.streams[c].id, o.streams[c].key))
  }

  lemma {:induction false} SketchIsKnown(ts: seq<Turn>)
    ensures Known(Sketch(ts), ts)
  {
    if ts != [] {
      var front, t := ts[..|ts| - 1], ts[|ts| - 1];
      SketchIsKnown(front);
      SketchStep(ts);
      DrawnIsKnown(Sketch(front), front, t);
      assert ts == front + [t];
    }
  }

  lemma StaysOpened(ts: seq<Turn>, t: Turn, id: u32, key: Key)
    requires WasOpened(ts, id, key) || (DataOpen(t.m) && t.m.id == id && KeyOf(t.m.headers) == key)
    ensures WasOpened(ts + [t], id, key)
  {
    if WasOpened(ts, id, key) {
      var i: nat :| OpenedAs(ts, i, id, key);
      assert OpenedAs(ts + [t], i, id, key);
    } else {
      assert OpenedAs(ts + [t], |ts|, id, key);
    }
  }

  lemma {:induction false} DrawnIsKnown(o: Outline, ts: seq<Turn>, t: Turn)
    requires Known(o, ts)
    ensures Known(Drawn(o, t), ts + [t])
  {
    var o' := Drawn(o, t);
    forall id | id in o'.routes
      ensures WasOpened(ts + [t], id, o'.routes[id])
    {
      StaysOpened(ts, t, id, o'.routes[id]);
    }
    forall c | 0 <= c < |o'.streams|
      ensures WasOpened(ts + [t], o'.streams[c].id, o'.streams[c].key)
    {
      StaysOpened(ts, t, o'.streams[c].id, o'.streams[c].key);
    }
  }

  lemma {:induction false} FreshOpeningIsSafe(ts: seq<Turn>, t: Turn)
    requires OneDataStreamPerKey(ts + [t]) && DataOpen(t.m)
    ensures SafeOpening(Sketch(ts), t.m.id, KeyOf(t.m.headers), t.dialed)
  {
    SketchIsKnown(ts);
    forall id: u32, key: Key | WasOpened(ts, id, key)
      ensures id != t.m.id && key != KeyOf(t.m.headers)
    {
      var i: nat :| OpenedAs(ts, i, id, key);
      assert (ts + [t])[i] == ts[i] && (ts + [t])[|ts|] == t;
    }
  }

  /** Openings with ids and keys of their own are safe, whichever dials fail. */
  lemma {:induction false} OneDataStreamPerKeyIsSafe(ts: seq<Turn>)
    requires OneDataStreamPerKey(ts)
    ensures Safe(Skeleton(ts))
  {
    if ts != [] {
      var front, t := ts[..|ts| - 1], ts[|ts| - 1];
      OneDataStreamPerKeyIsSafe(front);
      assert ts == front + [t];
      if DataOpen(t.m) { FreshOpeningIsSafe(front, t); }
      match MarkOf(t)
      case None => assert Skeleton(front) + [] == Skeleton(front);
      case Some(k) => assert (Skeleton(front) + [k])[..|Skeleton(front)|] == Skeleton(front);
    }
  }

  // ---------------------------------------------------------------------
  // The bytes of one stream
  // ---------------------------------------------------------------------

  function Said(ts: seq<Turn>): (ms: seq<Message>)
    ensures |ms| == |ts| && forall i :: 0 <= i < |ms| ==> ms[i] == ts[i].m
  {
    seq(|ts|, i requires 0 <= i < |ts| => ts[i].m)
  }

  lemma SentOnAppend(ms: seq<Message>, m: Message, id: u32)
    ensures var (data, stillOpen) := R.SentOn(true, ms, id);
      R.SentOn(true, ms + [m], id) ==
      if m.Input? && m.id == id then (if stillOpen then data + m.data else data, stillOpen && m.flags % 2 == 0)
      else (data, stillOpen)
  {
    assert (ms + [m])[..|ms|] == ms;
  }

  lemma FrontSlices(ts: seq<Turn>, i: nat)
    requires i + 1 < |ts|
    ensures var front := ts[..|ts| - 1];
      front[..i] == ts[..i] && front[i] == ts[i] && Said(ts[i + 1..]) == Said(front[i + 1..]) + [ts[|ts| - 1].m]
  {
  }

  lemma {:induction false} LeftGrows(ts: seq<Turn>)
    requires ts != [] && !Sketch(ts).left
    ensures !Sketch(ts[..|ts| - 1]).left
  {
    SketchStep(ts);
  }

  /** The stream that turn i opened is the dialed stream of that number, and
      what it was sent is what came on its id afterwards, up to its FIN. */
  lemma {:induction false} SentIsSentOn(ts: seq<Turn>, i: nat)
    requires i < |ts| && DataOpen(ts[i].m) && ts[i].dialed && !Sketch(ts).left
    ensures var c := |Sketch(ts[..i]).streams|;
      && c < |Sketch(ts).streams| && Sketch(ts).streams[c].id == ts[i].m.id
      && (Sent(ts)[c], Sketch(ts).streams[c].open) == R.SentOn(true, Said(ts[i + 1..]), ts[i].m.id)
    decreases |ts|
  {
    SketchStep(ts);
    LeftGrows(ts);
    if i == |ts| - 1 {
      assert ts[i + 1..] == [];
    } else {
      FrontSlices(ts, i);
      SentIsSentOn(ts[..|ts| - 1], i);
      SentOnAppend(Said(ts[..|ts| - 1][i + 1..]), ts[|ts| - 1].m, ts[i].m.id);
    }
  }

  lemma {:induction false} StreamIsIsolated(ts: seq<Turn>, i: nat)
    requires Safe(Skeleton(ts)) && i < |ts| && DataOpen(ts[i].m) && ts[i].dialed && !Sketch(ts).left
    ensures GotItsBytes(After(ts), |After(ts[..i]).conns|, R.SentOn(true, Said(ts[i + 1..]), ts[i].m.id))
  {
    SafeIsIsolated(ts);
    SentIsSentOn(ts, i);
    AfterFollows(ts[..i]);
  }

  /** Connection c holds these bytes, and is shut unless their FIN is still to
      come. */
  predicate GotItsBytes(s: Forwarding, c: nat, sent: (seq<byte>, bool)) {
    c < |s.conns| && s.conns[c].written == sent.0 && s.conns[c].shut == !sent.1
  }

  /** With safe openings, the connection dialed for a stream holds exactly what
      came on its id after its opening and before the client left, in order, up
      to its FIN, and is shut by that FIN alone, whatever else the client sends
      and whichever other dials fail. */
  lemma {:induction false} ConnsAreIsolated(ms: seq<Message>, dials: seq<bool>, i: nat)
    requires |ms| <= |dials| && Safe(Skeleton(Turns(ms, dials)))
    requires i < |Heeded(ms)| && DataOpen(ms[i]) && dials[i]
    ensures GotItsBytes(After(Turns(ms, dials)), |After(Turns(ms[..i], dials)).conns|,
                        R.SentOn(true, Heeded(ms)[i + 1..], ms[i].id))
  {
    var h := Heeded(ms);
    var ts := Turns(h, dials);
    assert ts == Turns(ms, dials)[..|h|] && ts[..i] == Turns(ms[..i], dials) && Said(ts[i + 1..]) == h[i + 1..];
    SafePrefix(Turns(ms, dials), |h|);
    AfterHeeded(ms, dials);
    AfterFollows(ts);
    StreamIsIsolated(ts, i);
  }

  /** A second data stream under the key of an open one is unsafe: it takes
      over, the first one's connection is shut, and its bytes go to the second
      one's. */
  lemma {:induction false} SecondStreamTakesOver(ts: seq<Turn>, c: nat, t: Turn, data: seq<byte>)
    requires Safe(Skeleton(ts)) && !Sketch(ts).left && c < |Sketch(ts).streams| && Sketch(ts).streams[c].open
    requires DataOpen(t.m) && t.dialed && t.m.id != Sketch(ts).streams[c].id && KeyOf(t.m.headers) == Sketch(ts).streams[c].key
    ensures var us := ts + [t] + [Turn(Input(Sketch(ts).streams[c].id, 0, data), false)];
      && c < |After(ts).conns| && |After(us).conns| == |After(ts).conns| + 1
      && After(us).conns[c] == After(ts).conns[c].(shut := true)
      && After(us).conns[|After(ts).conns|].written == data
  {
    var s, o, u := After(ts), Sketch(ts), Turn(Input(Sketch(ts).streams[c].id, 0, data), false);
    SafeIsSound(Skeleton(ts));
    AfterFollows(ts);
    assert PairConn(s, KeyOf(t.m.headers)) == Latest(o.streams, KeyOf(t.m.headers));
    assert Target(o, o.streams[c].id) == Some(c);
    assert (ts + [t])[..|ts|] == ts && (ts + [t] + [u])[..|ts| + 1] == ts + [t];
    assert After(ts + [t]) == Step(s, t.m, true);
    assert After(ts + [t] + [u]) == Step(After(ts + [t]), u.m, false);
    assert [] + data == data;
  }
}

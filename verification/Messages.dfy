/** What a client says, and the layers it goes through: header list, block,
    compression, frame. */
module Messages {

  import opened Options
  import opened Bytes
  import opened Frames
  import opened FrameReaderModule
  import opened HeaderCodec
  import H = HeaderBlock

  /** What a client says, before any encoding. `Hint` is a HEADERS frame with a
      header block of its own. */
  datatype Message =
    | Open(id: u32, headers: seq<H.Header>, assoc: u32, priority: byte, openFlags: byte)
    | Input(id: u32, flags: byte, data: seq<byte>)
    | Hint(hintId: u32, pairs: seq<H.Header>, hintFlags: byte)
    | Probe(pingId: u32)
    | Tune(frame: Frame)
    | Leave(frame: Frame)

  /** The messages whose frames fit the wire. */
  predicate Sayable(m: Message) {
    match m
    case Open(id, headers, assoc, priority, _) =>
      id < 0x8000_0000 && assoc < 0x8000_0000 && priority < 8
      && H.Encodable(headers) && 10 + 2 * |H.Block(headers)| + 64 < 0x100_0000
    case Input(id, _, data) => id < 0x8000_0000 && |data| < 0x100_0000
    case Hint(id, pairs, _) =>
      id < 0x8000_0000 && H.Encodable(pairs) && 4 + 2 * |H.Block(pairs)| + 64 < 0x100_0000
    case Probe(_) => true
    case Tune(f) => WellFormed(f) && (f.Settings? || f.WindowUpdate?)
    case Leave(f) => WellFormed(f) && (f.RstStream? || f.GoAway?)
  }

  predicate AllSayable(ms: seq<Message>) { forall m <- ms :: Sayable(m) }

  /** The frame of a message, after these blocks were compressed. */
  function FrameFor(c: Codec, blocks: seq<seq<byte>>, m: Message): Frame {
    match m
    case Open(id, headers, assoc, priority, flags) => SynStream(id, assoc, priority, flags, c.enc(blocks, H.Block(headers)))
    case Input(id, flags, data) => Data(id, flags, data)
    case Hint(id, pairs, flags) => Headers(id, flags, c.enc(blocks, H.Block(pairs)))
    case Probe(id) => Ping(id)
    case Tune(f) => f
    case Leave(f) => f
  }

  function BlocksAfter(blocks: seq<seq<byte>>, m: Message): seq<seq<byte>> {
    match m
    case Open(_, headers, _, _, _) => blocks + [H.Block(headers)]
    case Hint(_, pairs, _) => blocks + [H.Block(pairs)]
    case _ => blocks
  }

  function ClientFrames(c: Codec, blocks: seq<seq<byte>>, ms: seq<Message>): (fs: seq<Frame>)
    ensures |fs| == |ms|
    decreases |ms|
  {
    if ms == [] then [] else [FrameFor(c, blocks, ms[0])] + ClientFrames(c, BlocksAfter(blocks, ms[0]), ms[1..])
  }

  // ---------------------------------------------------------------------
  // The server's side
  // ---------------------------------------------------------------------

  /** The header list of a SYN_STREAM; a block that fails to decompress or to
      parse counts as no headers. */
  function HeadersOf(c: Codec, seen: seq<seq<byte>>, block: seq<byte>): seq<H.Header> {
    match c.dec(seen, block)
    case None => []
    case Some(plain) =>
      match H.ReadBlock(plain)
      case None => []
      case Some(hs) => hs
  }

  /** What the server makes of a frame, after its decompressor was fed the
      blocks `seen`. Frames it ignores are heard as tuning; the block of a
      HEADERS frame never reaches the decompressor. */
  function Hear(c: Codec, seen: seq<seq<byte>>, f: Frame): Message {
    match f
    case SynStream(id, assoc, priority, flags, block) => Open(id, HeadersOf(c, seen, block), assoc, priority, flags)
    case Data(id, flags, data) => Input(id, flags, data)
    case Ping(id) => Probe(id)
    case RstStream(_, _) => Leave(f)
    case GoAway(_, _) => Leave(f)
    case Settings(_) => Tune(f)
    case WindowUpdate(_, _) => Tune(f)
    case Headers(_, _, _) => Tune(f)
    case SynReply(_, _, _) => Tune(f)
  }

  function SeenAfter(seen: seq<seq<byte>>, f: Frame): seq<seq<byte>> {
    if f.SynStream? then seen + [f.synBlock] else seen
  }

  function HearAll(c: Codec, seen: seq<seq<byte>>, fs: seq<Frame>): (ms: seq<Message>)
    ensures |ms| == |fs|
    decreases |fs|
  {
    if fs == [] then [] else [Hear(c, seen, fs[0])] + HearAll(c, SeenAfter(seen, fs[0]), fs[1..])
  }

  /** What a message sounds like when nothing went wrong: itself, but for a
      HEADERS frame, which is only ignored. */
  function Echo(c: Codec, blocks: seq<seq<byte>>, m: Message): Message {
    if m.Hint? then Tune(FrameFor(c, blocks, m)) else m
  }

  function EchoAll(c: Codec, blocks: seq<seq<byte>>, ms: seq<Message>): (es: seq<Message>)
    ensures |es| == |ms| && forall i :: 0 <= i < |ms| ==> if ms[i].Hint? then es[i].Tune? else es[i] == ms[i]
    decreases |ms|
  {
    if ms == [] then [] else [Echo(c, blocks, ms[0])] + EchoAll(c, BlocksAfter(blocks, ms[0]), ms[1..])
  }

  /** Both loops stop at the first RST_STREAM or GOAWAY: what comes before it. */
  function Heeded(ms: seq<Message>): (h: seq<Message>)
    ensures h <= ms && forall m <- h :: !m.Leave?
    ensures h != ms ==> ms[|h|].Leave?
  {
    if ms == [] || ms[0].Leave? then [] else [ms[0]] + Heeded(ms[1..])
  }

  /** The headers of an opening are those whose block the decompressed bytes
      begin with, and none at all when they do not decompress or begin with no
      such block. */
  lemma {:induction false} HeadersExactly(c: Codec, seen: seq<seq<byte>>, block: seq<byte>, hs: seq<H.Header>)
    ensures c.dec(seen, block).Some? && H.Encodable(hs) && H.Block(hs) <= c.dec(seen, block).value ==>
      HeadersOf(c, seen, block) == hs
    ensures c.dec(seen, block).None? ==> HeadersOf(c, seen, block) == []
    ensures HeadersOf(c, seen, block) != [] ==>
      var found := HeadersOf(c, seen, block);
      c.dec(seen, block).Some? && H.Encodable(found) && H.Block(found) <= c.dec(seen, block).value
  {
    if c.dec(seen, block).Some? {
      H.ReadBlockExactly(c.dec(seen, block).value, hs);
      H.ReadBlockExactly(c.dec(seen, block).value, HeadersOf(c, seen, block));
    }
  }

  // ---------------------------------------------------------------------
  // Heard as said
  // ---------------------------------------------------------------------

  lemma {:induction false} FrameForIsWellFormed(c: Codec, blocks: seq<seq<byte>>, m: Message)
    requires Inverts(c) && Sayable(m)
    ensures WellFormed(FrameFor(c, blocks, m))
  {
    if m.Open? { assert |c.enc(blocks, H.Block(m.headers))| <= 2 * |H.Block(m.headers)| + 64; }
    if m.Hint? { assert |c.enc(blocks, H.Block(m.pairs))| <= 2 * |H.Block(m.pairs)| + 64; }
  }

  lemma {:induction false} ClientFramesWellFormed(c: Codec, blocks: seq<seq<byte>>, ms: seq<Message>)
    requires Inverts(c) && AllSayable(ms)
    ensures AllWellFormed(ClientFrames(c, blocks, ms))
    decreases |ms|
  {
    if ms != [] {
      FrameForIsWellFormed(c, blocks, ms[0]);
      ClientFramesWellFormed(c, BlocksAfter(blocks, ms[0]), ms[1..]);
    }
  }

  /** The server's header list is the one the client started from. */
  lemma {:induction false} HeadersArrive(c: Codec, blocks: seq<seq<byte>>, headers: seq<H.Header>)
    requires Inverts(c) && H.Encodable(headers)
    ensures HeadersOf(c, Compressed(c, blocks), c.enc(blocks, H.Block(headers))) == headers
  {
    assert c.dec(Compressed(c, blocks), c.enc(blocks, H.Block(headers))) == Some(H.Block(headers));
    ReadsBlock(headers);
  }

  lemma ReadsBlock(headers: seq<H.Header>)
    requires H.Encodable(headers)
    ensures H.ReadBlock(H.Block(headers)) == Some(headers)
  {
    H.ReadsBlockBack(headers, []);
    assert H.Block(headers) + [] == H.Block(headers);
  }

  lemma {:induction false} MessageIsHeard(c: Codec, blocks: seq<seq<byte>>, m: Message)
    requires Inverts(c) && Sayable(m) && !m.Hint?
    ensures Hear(c, Compressed(c, blocks), FrameFor(c, blocks, m)) == m
    ensures SeenAfter(Compressed(c, blocks), FrameFor(c, blocks, m)) == Compressed(c, BlocksAfter(blocks, m))
  {
    if m.Open? { OpeningIsHeard(c, blocks, m); }
  }

  lemma {:induction false} OpeningIsHeard(c: Codec, blocks: seq<seq<byte>>, m: Message)
    requires Inverts(c) && Sayable(m) && m.Open?
    ensures Hear(c, Compressed(c, blocks), FrameFor(c, blocks, m)) == m
    ensures SeenAfter(Compressed(c, blocks), FrameFor(c, blocks, m)) == Compressed(c, BlocksAfter(blocks, m))
  {
    HeadersArrive(c, blocks, m.headers);
    CompressedAppend(c, blocks, H.Block(m.headers));
  }

  /** A stream is opened after a block went into a HEADERS frame. */
  predicate OpenAfterHint(ms: seq<Message>) {
    exists i, j :: 0 <= i < j < |ms| && ms[i].Hint? && ms[j].Open?
  }

  lemma {:induction false} NotAnOpening(c: Codec, seen: seq<seq<byte>>, blocks: seq<seq<byte>>, m: Message)
    requires Sayable(m) && !m.Open?
    ensures Hear(c, seen, FrameFor(c, blocks, m)) == Echo(c, blocks, m) && SeenAfter(seen, FrameFor(c, blocks, m)) == seen
  {
  }

  /** One turn of the conversation, then the rest of it. */
  lemma HearFirst(c: Codec, seen: seq<seq<byte>>, blocks: seq<seq<byte>>, ms: seq<Message>)
    requires ms != []
    ensures var f := FrameFor(c, blocks, ms[0]);
      HearAll(c, seen, ClientFrames(c, blocks, ms)) ==
      [Hear(c, seen, f)] + HearAll(c, SeenAfter(seen, f), ClientFrames(c, BlocksAfter(blocks, ms[0]), ms[1..]))
  {
    var rest := ClientFrames(c, BlocksAfter(blocks, ms[0]), ms[1..]);
    assert ([FrameFor(c, blocks, ms[0])] + rest)[1..] == rest;
  }

  /** Without openings the decompressor does not matter. */
  lemma {:induction false} NoOpeningToMishear(c: Codec, seen: seq<seq<byte>>, blocks: seq<seq<byte>>, ms: seq<Message>)
    requires AllSayable(ms) && forall m <- ms :: !m.Open?
    ensures HearAll(c, seen, ClientFrames(c, blocks, ms)) == EchoAll(c, blocks, ms)
    decreases |ms|
  {
    if ms != [] {
      assert ms[0] in ms;
      NotAnOpening(c, seen, blocks, ms[0]);
      HearFirst(c, seen, blocks, ms);
      NoOpeningToMishear(c, seen, BlocksAfter(blocks, ms[0]), ms[1..]);
    }
  }

  /** A conversation is heard as it was said, as long as no stream is opened
      after a HEADERS frame. */
  lemma {:induction false} MessagesAreHeard(c: Codec, blocks: seq<seq<byte>>, ms: seq<Message>)
    requires Inverts(c) && AllSayable(ms) && !OpenAfterHint(ms)
    ensures HearAll(c, Compressed(c, blocks), ClientFrames(c, blocks, ms)) == EchoAll(c, blocks, ms)
    decreases |ms|
  {
    if ms != [] {
      assert ms[0] in ms;
      NoOpenAfterHintStep(ms);
      HearFirst(c, Compressed(c, blocks), blocks, ms);
      if ms[0].Hint? {
        NotAnOpening(c, Compressed(c, blocks), blocks, ms[0]);
        NoOpeningToMishear(c, Compressed(c, blocks), BlocksAfter(blocks, ms[0]), ms[1..]);
      } else {
        MessageIsHeard(c, blocks, ms[0]);
        MessagesAreHeard(c, BlocksAfter(blocks, ms[0]), ms[1..]);
      }
    }
  }

  lemma NoOpenAfterHintStep(ms: seq<Message>)
    requires ms != [] && !OpenAfterHint(ms)
    ensures !OpenAfterHint(ms[1..])
    ensures ms[0].Hint? ==> forall m <- ms[1..] :: !m.Open?
  {
    forall i, j | 0 <= i < j < |ms[1..]|
      ensures !(ms[1..][i].Hint? && ms[1..][j].Open?)
    {
      assert ms[1..][i] == ms[i + 1] && ms[1..][j] == ms[j + 1];
    }
    if ms[0].Hint? {
      forall m | m in ms[1..] ensures !m.Open? {
        var j :| 0 <= j < |ms[1..]| && ms[1..][j] == m;
        assert ms[j + 1] == m;
      }
    }
  }

  /** The bytes of any conversation decode to its frames, and these are heard
      as they were said, as far as the loop heeds them. */
  lemma {:induction false} ConversationDecodes(c: Codec, ms: seq<Message>)
    requires Inverts(c) && AllSayable(ms)
    ensures DecodeAll(SerializeAll(ClientFrames(c, [], ms)), false) == Decoding(ClientFrames(c, [], ms), Closed, [])
    ensures !OpenAfterHint(Heeded(ms)) ==> Heeded(HearAll(c, [], ClientFrames(c, [], ms))) == EchoAll(c, [], Heeded(ms))
  {
    var frames := ClientFrames(c, [], ms);
    ClientFramesWellFormed(c, [], ms);
    DecodeSerialized(frames, [], false);
    assert SerializeAll(frames) + [] == SerializeAll(frames) && frames + [] == frames;
    if !OpenAfterHint(Heeded(ms)) { HeededIsHeard(c, ms); }
  }

  // ---------------------------------------------------------------------
  // When an opening is misheard
  // ---------------------------------------------------------------------

  function HintsBefore(ms: seq<Message>, j: nat): nat
    requires j <= |ms|
  {
    if j == 0 then 0 else HintsBefore(ms[1..], j - 1) + if ms[0].Hint? then 1 else 0
  }

  lemma {:induction false} HintCounts(ms: seq<Message>, i: nat, j: nat)
    requires i < j <= |ms| && ms[i].Hint?
    ensures HintsBefore(ms, j) > 0
  {
    if i > 0 { HintCounts(ms[1..], i - 1, j - 1); }
  }

  /** The number of blocks before message j does not depend on the codec. */
  function BlockCount(ms: seq<Message>, j: nat): nat
    requires j <= |ms|
  {
    if j == 0 then 0 else BlockCount(ms[1..], j - 1) + if ms[0].Open? || ms[0].Hint? then 1 else 0
  }

  lemma {:induction false} CountsStep(c: Codec, seen: seq<seq<byte>>, blocks: seq<seq<byte>>, ms: seq<Message>, j: nat)
    requires 0 < j < |ms| && Sayable(ms[0])
    ensures |BlocksAfter(blocks, ms[0])| + BlockCount(ms[1..], j - 1) == |blocks| + BlockCount(ms, j)
    ensures |SeenAfter(seen, FrameFor(c, blocks, ms[0]))| + HintsBefore(ms, j) + BlockCount(ms[1..], j - 1)
         == |seen| + HintsBefore(ms[1..], j - 1) + BlockCount(ms, j)
  {
  }

  /** At message j the client's compressor is ahead of the server's
      decompressor by the hints before it. */
  lemma {:induction false} HeardAt(c: Codec, seen: seq<seq<byte>>, blocks: seq<seq<byte>>, ms: seq<Message>, j: nat)
    returns (seen': seq<seq<byte>>, blocks': seq<seq<byte>>)
    requires AllSayable(ms) && j < |ms|
    ensures HearAll(c, seen, ClientFrames(c, blocks, ms))[j] == Hear(c, seen', FrameFor(c, blocks', ms[j]))
    ensures |blocks'| == |blocks| + BlockCount(ms, j)
    ensures |seen'| + HintsBefore(ms, j) == |seen| + BlockCount(ms, j)
    decreases j
  {
    HearFirst(c, seen, blocks, ms);
    if j == 0 {
      seen', blocks' := seen, blocks;
    } else {
      assert ms[0] in ms;
      CountsStep(c, seen, blocks, ms, j);
      seen', blocks' := HeardAt(c, SeenAfter(seen, FrameFor(c, blocks, ms[0])), BlocksAfter(blocks, ms[0]), ms[1..], j - 1);
    }
  }

  /** An opening that follows a hint can be heard with any other headers: here
      is a codec within its contract that does so. */
  lemma {:induction false} OpeningIsMisheard(ms: seq<Message>, i: nat, j: nat, other: seq<H.Header>) returns (c: Codec)
    requires AllSayable(ms) && i < j < |ms| && ms[i].Hint? && ms[j].Open? && H.Encodable(other)
    ensures Inverts(c)
    ensures HearAll(c, [], ClientFrames(c, [], ms))[j] == ms[j].(headers := other)
  {
    var n := BlockCount(ms, j);
    c := Marking(n, H.Block(other));
    MarkingInverts(n, H.Block(other));
    var seen, blocks := HeardAt(c, [], [], ms, j);
    HintCounts(ms, i, j);
    ReadsBlock(other);
  }

  /** Every opening is heard as it was said. */
  predicate OpeningsHeard(c: Codec, ms: seq<Message>) {
    forall i :: 0 <= i < |ms| && ms[i].Open? ==> HearAll(c, [], ClientFrames(c, [], ms))[i] == ms[i]
  }

  /** Every codec within its contract lets the server hear every opening as it
      was said, if and only if no stream is opened after a HEADERS frame. */
  lemma {:induction false} OpeningsHeardExactly(ms: seq<Message>)
    requires AllSayable(ms)
    ensures (forall c: Codec | Inverts(c) :: OpeningsHeard(c, ms)) <==> !OpenAfterHint(ms)
  {
    if OpenAfterHint(ms) {
      var i, j :| 0 <= i < j < |ms| && ms[i].Hint? && ms[j].Open?;
      var other := if ms[j].headers == [] then [H.Header([], [])] else [];
      var c := OpeningIsMisheard(ms, i, j, other);
      assert Inverts(c) && !OpeningsHeard(c, ms);
    } else {
      forall c: Codec | Inverts(c)
        ensures OpeningsHeard(c, ms)
      {
        MessagesAreHeard(c, [], ms);
      }
    }
  }

  // ---------------------------------------------------------------------
  // Up to the message that ends the loop
  // ---------------------------------------------------------------------

  lemma {:induction false} HeededIs(ms: seq<Message>, n: nat)
    requires n <= |ms| && (forall m <- ms[..n] :: !m.Leave?) && (n < |ms| ==> ms[n].Leave?)
    ensures Heeded(ms) == ms[..n]
  {
    if n > 0 {
      assert ms[0] in ms[..n] && ms[1..][..n - 1] == ms[..n][1..];
      HeededIs(ms[1..], n - 1);
      assert ms[..n] == [ms[0]] + ms[..n][1..];
    }
  }

  lemma HeededPrefix(ms: seq<Message>, n: nat)
    requires n <= |ms|
    ensures Heeded(ms[..n]) == Heeded(ms)[..if n < |Heeded(ms)| then n else |Heeded(ms)|]
  {
    var h := Heeded(ms);
    var k := if n < |h| then n else |h|;
    assert ms[..n][..k] == h[..k];
    forall m | m in h[..k] ensures !m.Leave? { assert m in h; }
    HeededIs(ms[..n], k);
  }

  lemma {:induction false} HearPrefix(c: Codec, seen: seq<seq<byte>>, blocks: seq<seq<byte>>, ms: seq<Message>, n: nat)
    requires n <= |ms|
    ensures HearAll(c, seen, ClientFrames(c, blocks, ms))[..n] == HearAll(c, seen, ClientFrames(c, blocks, ms[..n]))
    decreases n
  {
    if n > 0 {
      HearFirst(c, seen, blocks, ms);
      HearFirst(c, seen, blocks, ms[..n]);
      assert ms[..n][1..] == ms[1..][..n - 1];
      HearPrefix(c, SeenAfter(seen, FrameFor(c, blocks, ms[0])), BlocksAfter(blocks, ms[0]), ms[1..], n - 1);
    }
  }

  lemma EchoStays(c: Codec, blocks: seq<seq<byte>>, ms: seq<Message>)
    requires forall m <- ms :: !m.Leave?
    ensures forall m <- EchoAll(c, blocks, ms) :: !m.Leave?
  {
    var es := EchoAll(c, blocks, ms);
    forall m | m in es ensures !m.Leave? {
      var i :| 0 <= i < |ms| && es[i] == m;
      assert ms[i] in ms;
    }
  }

  lemma LeaveIsHeard(c: Codec, ms: seq<Message>, n: nat)
    requires AllSayable(ms) && n < |ms| && ms[n].Leave?
    ensures HearAll(c, [], ClientFrames(c, [], ms))[n].Leave?
  {
    var _, _ := HeardAt(c, [], [], ms, n);
    assert ms[n] in ms;
  }

  /** The loop hears all it heeds, as long as no stream is opened after a
      HEADERS frame. */
  lemma {:induction false} HeededIsHeard(c: Codec, ms: seq<Message>)
    requires Inverts(c) && AllSayable(ms) && !OpenAfterHint(Heeded(ms))
    ensures Heeded(HearAll(c, [], ClientFrames(c, [], ms))) == EchoAll(c, [], Heeded(ms))
  {
    var h, heard := Heeded(ms), HearAll(c, [], ClientFrames(c, [], ms));
    HearPrefix(c, [], [], ms, |h|);
    assert ms[..|h|] == h && AllSayable(h);
    MessagesAreHeard(c, [], h);
    EchoStays(c, [], h);
    if |h| < |ms| { LeaveIsHeard(c, ms, |h|); }
    HeededIs(heard, |h|);
  }
}

/** Taking frames off a byte stream that arrives in arbitrary pieces. */
module FrameReaderModule {

  import opened Bytes
  import opened Frames

  /** What one `read_frame` returns; `Closed` is the end of the stream, also in
      the middle of a frame. */
  datatype Outcome = GotFrame(frame: Frame) | Malformed(error: FramingError) | Closed | ReadFailed

  // ---------------------------------------------------------------------
  // Decoding the whole stream at once
  // ---------------------------------------------------------------------

  /** The first outcome on a stream that holds these bytes and then ends. */
  function First(stream: seq<byte>, failing: bool): Outcome {
    match Parse(stream)
    case Parsed(f, _) => GotFrame(f)
    case Failed(e) => Malformed(e)
    case NeedMore => if failing then ReadFailed else Closed
  }

  datatype Decoding = Decoding(frames: seq<Frame>, last: Outcome, left: seq<byte>)

  /** All frames of the stream, the outcome after the last of them, and the
      bytes no frame took. */
  function DecodeAll(stream: seq<byte>, failing: bool): (d: Decoding)
    ensures !d.last.GotFrame?
    decreases |stream|
  {
    match Parse(stream)
    case Parsed(f, n) =>
      var d := DecodeAll(stream[n..], failing);
      d.(frames := [f] + d.frames)
    case _ => Decoding([], First(stream, failing), stream)
  }

  /** d is what remains, with these frames decoded before it. */
  function Before(frames: seq<Frame>, d: Decoding): Decoding { Decoding(frames + d.frames, d.last, d.left) }

  lemma BeforeTwice(a: seq<Frame>, b: seq<Frame>, d: Decoding)
    ensures Before(a, Before(b, d)) == Before(a + b, d)
    ensures Before([], d) == d
  {
    assert a + (b + d.frames) == (a + b) + d.frames;
    assert [] + d.frames == d.frames;
  }

  lemma {:induction false} DecodeStep(stream: seq<byte>, failing: bool)
    ensures match Parse(stream)
      case Parsed(f, n) => DecodeAll(stream, failing) == Before([f], DecodeAll(stream[n..], failing))
      case _ => DecodeAll(stream, failing) == Decoding([], First(stream, failing), stream)
  {
  }

  function SerializeAll(fs: seq<Frame>): seq<byte> {
    if fs == [] then [] else Serialize(fs[0]) + SerializeAll(fs[1..])
  }

  predicate AllWellFormed(fs: seq<Frame>) { forall f <- fs :: WellFormed(f) }

  lemma SerializeAllSplit(fs: seq<Frame>, rest: seq<byte>)
    requires fs != []
    ensures SerializeAll(fs) + rest == Serialize(fs[0]) + (SerializeAll(fs[1..]) + rest)
  {
    var first, others := Serialize(fs[0]), SerializeAll(fs[1..]);
    assert (first + others) + rest == first + (others + rest);
  }

  lemma {:induction false} DecodeOne(f: Frame, tail: seq<byte>, failing: bool)
    requires WellFormed(f)
    ensures DecodeAll(Serialize(f) + tail, failing) == Before([f], DecodeAll(tail, failing))
  {
    SerializeThenParse(f, tail);
    assert (Serialize(f) + tail)[|Serialize(f)|..] == tail;
    DecodeStep(Serialize(f) + tail, failing);
  }

  /** A stream of serialized frames decodes to exactly those frames, then to
      whatever the rest of it decodes to. */
  lemma {:induction false} DecodeSerialized(fs: seq<Frame>, rest: seq<byte>, failing: bool)
    requires AllWellFormed(fs)
    ensures DecodeAll(SerializeAll(fs) + rest, failing)
         == Before(fs, DecodeAll(rest, failing))
  {
    if fs == [] {
      assert SerializeAll(fs) + rest == rest;
      BeforeTwice([], [], DecodeAll(rest, failing));
    } else {
      SerializeAllSplit(fs, rest);
      DecodeOne(fs[0], SerializeAll(fs[1..]) + rest, failing);
      DecodeSerialized(fs[1..], rest, failing);
      BeforeTwice([fs[0]], fs[1..], DecodeAll(rest, failing));
      assert [fs[0]] + fs[1..] == fs;
    }
  }

  /** Cut at any point, a stream of serialized frames gives the frames that are
      complete, and no error. */
  lemma {:induction false} DecodeCutStream(fs: seq<Frame>, f: Frame, k: nat)
    requires AllWellFormed(fs) && WellFormed(f) && k < |Serialize(f)|
    ensures DecodeAll(SerializeAll(fs) + Serialize(f)[..k], false) == Decoding(fs, Closed, Serialize(f)[..k])
  {
    DecodeSerialized(fs, Serialize(f)[..k], false);
    PrefixNeedsMore(f, k);
  }

  // ---------------------------------------------------------------------
  // Decoding piece by piece
  // ---------------------------------------------------------------------

  const READ_SIZE: nat := 16384

  predicate Read(chunk: seq<byte>) { 1 <= |chunk| <= READ_SIZE }

  /** The connection's input: the bytes buffered so far, the non-empty reads
      still to come, and whether an error rather than the end follows them. */
  class FrameReader {
    var buf: seq<byte>
    var incoming: seq<seq<byte>>
    const failing: bool

    constructor (incoming: seq<seq<byte>>, failing: bool)
      requires forall c <- incoming :: Read(c)
      ensures Valid() && Stream() == Flatten(incoming) && this.failing == failing
    {
      buf := [];
      this.incoming := incoming;
      this.failing := failing;
      new;
      assert [] + Flatten(incoming) == Flatten(incoming);
    }

    predicate Valid()
      reads this
    {
      forall c <- incoming :: Read(c)
    }

    function Stream(): seq<byte>
      reads this
    {
      buf + Flatten(incoming)
    }

    /** `read_frame`. Its answer is that of parsing the whole stream at once. */
    method ReadFrame() returns (r: Outcome)
      requires Valid()
      modifies this
      ensures Valid()
      ensures r == First(old(Stream()), failing)
      ensures r.GotFrame? ==> Stream() == old(Stream())[Parse(old(Stream())).used..]
      ensures !r.GotFrame? ==> Stream() == old(Stream())
      ensures r.Closed? || r.ReadFailed? ==> incoming == []
    {
      while true
        invariant Valid() && Stream() == old(Stream())
        decreases |incoming|
      {
        match Parse(buf)
        case Parsed(f, n) =>
          ParseIsStable(buf, Flatten(incoming));
          assert Stream()[n..] == buf[n..] + Flatten(incoming);
          buf := buf[n..];
          return GotFrame(f);
        case Failed(e) =>
          ParseIsStable(buf, Flatten(incoming));
          return Malformed(e);
        case NeedMore =>
          if incoming == [] {
            assert Stream() == buf;
            return if failing then ReadFailed else Closed;
          }
          assert buf + Flatten(incoming) == (buf + incoming[0]) + Flatten(incoming[1..]);
          buf, incoming := buf + incoming[0], incoming[1..];
      }
    }

    /** The loop around `read_frame`: frames are handled until the first
        outcome that is none. */
    method ReadAll() returns (frames: seq<Frame>, last: Outcome)
      requires Valid()
      modifies this
      ensures Valid()
      ensures DecodeAll(old(Stream()), failing) == Decoding(frames, last, Stream())
    {
      frames := [];
      BeforeTwice([], [], DecodeAll(Stream(), failing));
      while true
        invariant Valid()
        invariant DecodeAll(old(Stream()), failing) == Before(frames, DecodeAll(Stream(), failing))
        decreases |Stream()|
      {
        DecodeStep(Stream(), failing);
        var r := ReadFrame();
        if !r.GotFrame? { return frames, r; }
        BeforeTwice(frames, [r.frame], DecodeAll(Stream(), failing));
        frames := frames + [r.frame];
      }
    }
  }

  /** However a peer's well-formed frames were cut into reads, the reader gets
      exactly those frames, then the end of the stream. */
  method ReceiveAll(fs: seq<Frame>, incoming: seq<seq<byte>>) returns (frames: seq<Frame>, last: Outcome)
    requires AllWellFormed(fs) && (forall c <- incoming :: Read(c)) && Flatten(incoming) == SerializeAll(fs)
    ensures frames == fs && last == Closed
  {
    var reader := new FrameReader(incoming, false);
    frames, last := reader.ReadAll();
    DecodeSerialized(fs, [], false);
    assert SerializeAll(fs) + [] == SerializeAll(fs);
    assert fs + [] == fs;
  }
}

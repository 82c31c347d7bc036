/** SPDY/3.1 frames: their wire form and the parser that takes one off the
    front of a buffer (SPDY draft 3, section 2.2). */
module Frames {

  import opened Bytes

  type u32 = x: int | 0 <= x < 0x1_0000_0000

  /** Header blocks stay compressed here. */
  datatype Frame =
    | SynStream(synId: u32, assocId: u32, priority: byte, synFlags: byte, synBlock: seq<byte>)
    | SynReply(replyId: u32, replyFlags: byte, replyBlock: seq<byte>)
    | RstStream(rstId: u32, rstStatus: u32)
    | Settings(payload: seq<byte>)
    | Ping(pingId: u32)
    | GoAway(lastGoodId: u32, goAwayStatus: u32)
    | Headers(headersId: u32, headersFlags: byte, headersBlock: seq<byte>)
    | WindowUpdate(windowId: u32, delta: u32)
    | Data(dataId: u32, dataFlags: byte, data: seq<byte>)

  datatype FramingError = UnsupportedVersion(version: nat) | ShortPayload(ftype: nat) | UnknownType(ftype: nat)

  datatype ParseResult = Parsed(frame: Frame, used: nat) | NeedMore | Failed(error: FramingError)

  const SYN_STREAM: nat := 1
  const SYN_REPLY: nat := 2
  const RST_STREAM: nat := 3
  const SETTINGS: nat := 4
  const PING: nat := 6
  const GOAWAY: nat := 7
  const HEADERS: nat := 8
  const WINDOW_UPDATE: nat := 9

  const SPDY_VERSION: nat := 3

  // ---------------------------------------------------------------------
  // Bit operations, as quotients and remainders by powers of two
  // ---------------------------------------------------------------------

  /** `x & 0x7fff_ffff` */
  function Low31(x: u32): u32 { x % 0x8000_0000 }

  /** `(x >> 8 * k) as u8`, for the three bytes of a 24-bit length */
  function LengthBytes(n: nat): (b: seq<byte>)
    ensures |b| == 3
  {
    var high: int, middle: int, low: int := n / 65536 % 256, n / 256 % 256, n % 256;
    [high, middle, low]
  }

  function LengthValue(b: seq<byte>): (n: nat)
    requires |b| == 3
    ensures n < 0x100_0000
  {
    var high: int, middle: int, low: int := b[0], b[1], b[2];
    65536 * high + 256 * middle + low
  }

  function LengthOf(buf: seq<byte>): (n: nat)
    requires |buf| >= 8
    ensures n < 0x100_0000
  {
    LengthValue(buf[5..8])
  }

  lemma {:induction false} LengthRoundTrip(n: nat)
    requires n < 0x100_0000
    ensures LengthValue(LengthBytes(n)) == n
  {
    assert n / 256 == 256 * (n / 65536) + n / 256 % 256;
  }

  /** `priority << 5`, in eight bits */
  function PriorityByte(priority: byte): byte {
    var shifted: int := 32 * priority as int;
    shifted % 256
  }

  function PriorityOf(b: byte): byte {
    var n: int := b;
    n / 32
  }

  // ---------------------------------------------------------------------
  // Parsing
  // ---------------------------------------------------------------------

  datatype Decoded = Good(frame: Frame) | Bad(error: FramingError)

  function IdAt(payload: seq<byte>, at: nat): u32
    requires at + 4 <= |payload|
  {
    FromBE32(payload[at..at + 4])
  }

  /** The control frame arms of the parser. */
  function DecodeControl(ftype: nat, flags: byte, payload: seq<byte>): Decoded {
    if ftype == SYN_STREAM then
      if |payload| < 10 then Bad(ShortPayload(ftype))
      else Good(SynStream(Low31(IdAt(payload, 0)), Low31(IdAt(payload, 4)), PriorityOf(payload[8]), flags, payload[10..]))
    else if ftype == SYN_REPLY then
      if |payload| < 4 then Bad(ShortPayload(ftype)) else Good(SynReply(Low31(IdAt(payload, 0)), flags, payload[4..]))
    else if ftype == RST_STREAM then
      if |payload| < 8 then Bad(ShortPayload(ftype)) else Good(RstStream(Low31(IdAt(payload, 0)), IdAt(payload, 4)))
    else if ftype == SETTINGS then Good(Settings(payload))
    else if ftype == PING then
      if |payload| < 4 then Bad(ShortPayload(ftype)) else Good(Ping(IdAt(payload, 0)))
    else if ftype == GOAWAY then
      if |payload| < 8 then Bad(ShortPayload(ftype)) else Good(GoAway(Low31(IdAt(payload, 0)), IdAt(payload, 4)))
    else if ftype == HEADERS then
      if |payload| < 4 then Bad(ShortPayload(ftype)) else Good(Headers(Low31(IdAt(payload, 0)), flags, payload[4..]))
    else if ftype == WINDOW_UPDATE then
      if |payload| < 8 then Bad(ShortPayload(ftype))
      else Good(WindowUpdate(Low31(IdAt(payload, 0)), Low31(IdAt(payload, 4))))
    else Bad(UnknownType(ftype))
  }

  /** A whole frame: its eight header bytes and its payload. */
  function Decode(header: seq<byte>, payload: seq<byte>): Decoded
    requires |header| == 8
  {
    if header[0] < 128 then Good(Data(Low31(IdAt(header, 0)), header[4], payload))
    else
      var version := FromBE16([header[0] % 128, header[1]]);
      if version != SPDY_VERSION then Bad(UnsupportedVersion(version))
      else DecodeControl(FromBE16(header[2..4]), header[4], payload)
  }

  /** `parse_frame` */
  function Parse(buf: seq<byte>): (r: ParseResult)
    ensures r.Parsed? ==> 8 <= r.used <= |buf|
  {
    if |buf| < 8 || |buf| < 8 + LengthOf(buf) then NeedMore
    else
      var total := 8 + LengthOf(buf);
      match Decode(buf[..8], buf[8..total])
      case Good(f) => Parsed(f, total)
      case Bad(e) => Failed(e)
  }

  // ---------------------------------------------------------------------
  // Serializing
  // ---------------------------------------------------------------------

  function ControlFrame(ftype: nat, flags: byte, payload: seq<byte>): (s: seq<byte>)
    requires ftype < 65536
    ensures |s| == 8 + |payload|
  {
    [128, 3] + BE16(ftype) + [flags] + LengthBytes(|payload|) + payload
  }

  function DataFrame(id: u32, flags: byte, data: seq<byte>): (s: seq<byte>)
    ensures |s| == 8 + |data|
  {
    BE32(Low31(id)) + [flags] + LengthBytes(|data|) + data
  }

  /** `Frame::serialize` */
  function Serialize(f: Frame): (s: seq<byte>)
    ensures |s| >= 8
  {
    match f
    case SynReply(id, flags, block) => ControlFrame(SYN_REPLY, flags, BE32(Low31(id)) + block)
    case SynStream(id, assoc, priority, flags, block) =>
      ControlFrame(SYN_STREAM, flags, BE32(Low31(id)) + BE32(Low31(assoc)) + [PriorityByte(priority), 0] + block)
    case Headers(id, flags, block) => ControlFrame(HEADERS, flags, BE32(Low31(id)) + block)
    case RstStream(id, status) => ControlFrame(RST_STREAM, 0, BE32(Low31(id)) + BE32(status))
    case Ping(id) => ControlFrame(PING, 0, BE32(id))
    case GoAway(id, status) => ControlFrame(GOAWAY, 0, BE32(Low31(id)) + BE32(status))
    case Settings(payload) => ControlFrame(SETTINGS, 0, payload)
    case WindowUpdate(id, delta) => ControlFrame(WINDOW_UPDATE, 0, BE32(Low31(id)) + BE32(Low31(delta)))
    case Data(id, flags, data) => DataFrame(id, flags, data)
  }

  /** A frame whose numbers fit their fields on the wire. */
  predicate WellFormed(f: Frame) {
    match f
    case SynStream(id, assoc, priority, _, block) =>
      id < 0x8000_0000 && assoc < 0x8000_0000 && priority < 8 && 10 + |block| < 0x100_0000
    case SynReply(id, _, block) => id < 0x8000_0000 && 4 + |block| < 0x100_0000
    case RstStream(id, _) => id < 0x8000_0000
    case Settings(payload) => |payload| < 0x100_0000
    case Ping(_) => true
    case GoAway(id, _) => id < 0x8000_0000
    case Headers(id, _, block) => id < 0x8000_0000 && 4 + |block| < 0x100_0000
    case WindowUpdate(id, delta) => id < 0x8000_0000 && delta < 0x8000_0000
    case Data(id, _, data) => id < 0x8000_0000 && |data| < 0x100_0000
  }

  // ---------------------------------------------------------------------
  // What is parsed depends on the frame's own bytes only
  // ---------------------------------------------------------------------

  /** A frame or an error, once found, is found again whatever arrives later. */
  lemma {:induction false} ParseIsStable(buf: seq<byte>, more: seq<byte>)
    requires !Parse(buf).NeedMore?
    ensures Parse(buf + more) == Parse(buf)
  {
    var total := 8 + LengthOf(buf);
    assert (buf + more)[5..8] == buf[5..8];
    assert (buf + more)[..8] == buf[..8] && (buf + more)[8..total] == buf[8..total];
  }

  // ---------------------------------------------------------------------
  // Parsing what was serialized
  // ---------------------------------------------------------------------

  lemma {:induction false} ParseControlFrame(ftype: nat, flags: byte, payload: seq<byte>, rest: seq<byte>)
    requires ftype < 65536 && |payload| < 0x100_0000
    ensures Parse(ControlFrame(ftype, flags, payload) + rest) ==
      match DecodeControl(ftype, flags, payload)
      case Good(f) => Parsed(f, 8 + |payload|)
      case Bad(e) => Failed(e)
  {
    var s := ControlFrame(ftype, flags, payload) + rest;
    LengthRoundTrip(|payload|);
    BE16RoundTrip(ftype);
    assert s[0] == 128 && s[1] == 3 && s[4] == flags && s[5..8] == LengthBytes(|payload|);
    assert s[2] == BE16(ftype)[0] && s[3] == BE16(ftype)[1];
    assert s[..8][2..4] == BE16(ftype);
    assert s[8..8 + |payload|] == payload;
    assert FromBE16([s[..8][0] % 128, s[..8][1]]) == 3;
  }

  lemma {:induction false} ParseDataFrame(id: u32, flags: byte, data: seq<byte>, rest: seq<byte>)
    requires |data| < 0x100_0000
    ensures Parse(DataFrame(id, flags, data) + rest) == Parsed(Data(Low31(id), flags, data), 8 + |data|)
  {
    var s := DataFrame(id, flags, data) + rest;
    LengthRoundTrip(|data|);
    var b := BE32(Low31(id));
    assert s[4] == flags && s[5..8] == LengthBytes(|data|);
    assert s[..8][0..4] == b;
    BE32RoundTrip(Low31(id));
    assert b[0] < 128;
    assert s[8..8 + |data|] == data;
  }

  lemma {:induction false} TwoIds(a: u32, b: u32, rest: seq<byte>)
    ensures IdAt(BE32(a) + BE32(b) + rest, 0) == a && IdAt(BE32(a) + BE32(b) + rest, 4) == b
    ensures IdAt(BE32(a) + BE32(b), 0) == a && IdAt(BE32(a) + BE32(b), 4) == b
    ensures IdAt(BE32(a) + rest, 0) == a && (BE32(a) + rest)[4..] == rest
    ensures IdAt(BE32(a), 0) == a
  {
    BE32RoundTrip(a);
    BE32RoundTrip(b);
    assert (BE32(a) + BE32(b) + rest)[0..4] == BE32(a) && (BE32(a) + BE32(b) + rest)[4..8] == BE32(b);
    assert (BE32(a) + BE32(b))[0..4] == BE32(a) && (BE32(a) + BE32(b))[4..8] == BE32(b);
    assert (BE32(a) + rest)[0..4] == BE32(a);
    assert BE32(a)[0..4] == BE32(a);
  }

  lemma {:induction false} DecodeSynStream(id: u32, assoc: u32, priority: byte, flags: byte, block: seq<byte>)
    requires id < 0x8000_0000 && assoc < 0x8000_0000 && priority < 8
    ensures DecodeControl(SYN_STREAM, flags, BE32(id) + BE32(assoc) + [PriorityByte(priority), 0] + block)
         == Good(SynStream(id, assoc, priority, flags, block))
  {
    var payload := BE32(id) + BE32(assoc) + [PriorityByte(priority), 0] + block;
    assert payload == BE32(id) + BE32(assoc) + ([PriorityByte(priority), 0] + block);
    TwoIds(id, assoc, [PriorityByte(priority), 0] + block);
    assert payload[8] == PriorityByte(priority) && payload[10..] == block;
    assert PriorityOf(PriorityByte(priority)) == priority;
  }

  /** Every well-formed frame parses back to itself and to its own length,
      whatever follows it on the wire. */
  lemma {:induction false} SerializeThenParse(f: Frame, rest: seq<byte>)
    requires WellFormed(f)
    ensures Parse(Serialize(f) + rest) == Parsed(f, |Serialize(f)|)
  {
    match f
    case SynStream(_, _, _, _, _) => SynStreamThenParse(f, rest);
    case SynReply(_, _, _) => BlockFrameThenParse(f, rest);
    case Headers(_, _, _) => BlockFrameThenParse(f, rest);
    case RstStream(_, _) => RstStreamThenParse(f, rest);
    case GoAway(_, _) => GoAwayThenParse(f, rest);
    case WindowUpdate(_, _) => WindowUpdateThenParse(f, rest);
    case Ping(id) =>
      ParseControlFrame(PING, 0, BE32(id), rest);
      TwoIds(id, 0, []);
    case Settings(payload) => ParseControlFrame(SETTINGS, 0, payload, rest);
    case Data(id, flags, data) => ParseDataFrame(id, flags, data, rest);
  }

  lemma {:induction false} SynStreamThenParse(f: Frame, rest: seq<byte>)
    requires WellFormed(f) && f.SynStream?
    ensures Parse(Serialize(f) + rest) == Parsed(f, |Serialize(f)|)
  {
    var payload := BE32(f.synId) + BE32(f.assocId) + [PriorityByte(f.priority), 0] + f.synBlock;
    ParseControlFrame(SYN_STREAM, f.synFlags, payload, rest);
    DecodeSynStream(f.synId, f.assocId, f.priority, f.synFlags, f.synBlock);
  }

  lemma {:induction false} DecodeBlockFrame(id: u32, flags: byte, block: seq<byte>)
    requires id < 0x8000_0000
    ensures DecodeControl(SYN_REPLY, flags, BE32(id) + block) == Good(SynReply(id, flags, block))
    ensures DecodeControl(HEADERS, flags, BE32(id) + block) == Good(Headers(id, flags, block))
  {
    TwoIds(id, 0, block);
  }

  lemma {:induction false} DecodeFixedFrame(id: u32, value: u32, flags: byte)
    requires id < 0x8000_0000
    ensures DecodeControl(RST_STREAM, flags, BE32(id) + BE32(value)) == Good(RstStream(id, value))
    ensures DecodeControl(GOAWAY, flags, BE32(id) + BE32(value)) == Good(GoAway(id, value))
  {
    TwoIds(id, value, []);
  }

  lemma {:induction false} DecodeWindowUpdate(id: u32, delta: u32, flags: byte)
    requires id < 0x8000_0000 && delta < 0x8000_0000
    ensures DecodeControl(WINDOW_UPDATE, flags, BE32(id) + BE32(delta)) == Good(WindowUpdate(id, delta))
  {
    TwoIds(id, delta, []);
  }

  lemma {:induction false} RstStreamThenParse(f: Frame, rest: seq<byte>)
    requires WellFormed(f) && f.RstStream?
    ensures Parse(Serialize(f) + rest) == Parsed(f, |Serialize(f)|)
  {
    ParseControlFrame(RST_STREAM, 0, BE32(f.rstId) + BE32(f.rstStatus), rest);
    DecodeFixedFrame(f.rstId, f.rstStatus, 0);
  }

  lemma {:induction false} GoAwayThenParse(f: Frame, rest: seq<byte>)
    requires WellFormed(f) && f.GoAway?
    ensures Parse(Serialize(f) + rest) == Parsed(f, |Serialize(f)|)
  {
    ParseControlFrame(GOAWAY, 0, BE32(f.lastGoodId) + BE32(f.goAwayStatus), rest);
    DecodeFixedFrame(f.lastGoodId, f.goAwayStatus, 0);
  }

  lemma {:induction false} WindowUpdateThenParse(f: Frame, rest: seq<byte>)
    requires WellFormed(f) && f.WindowUpdate?
    ensures Parse(Serialize(f) + rest) == Parsed(f, |Serialize(f)|)
  {
    ParseControlFrame(WINDOW_UPDATE, 0, BE32(f.windowId) + BE32(f.delta), rest);
    DecodeWindowUpdate(f.windowId, f.delta, 0);
  }

  lemma {:induction false} BlockFrameThenParse(f: Frame, rest: seq<byte>)
    requires WellFormed(f) && (f.SynReply? || f.Headers?)
    ensures Parse(Serialize(f) + rest) == Parsed(f, |Serialize(f)|)
  {
    if f.SynReply? {
      ParseControlFrame(SYN_REPLY, f.replyFlags, BE32(f.replyId) + f.replyBlock, rest);
      DecodeBlockFrame(f.replyId, f.replyFlags, f.replyBlock);
    } else {
      ParseControlFrame(HEADERS, f.headersFlags, BE32(f.headersId) + f.headersBlock, rest);
      DecodeBlockFrame(f.headersId, f.headersFlags, f.headersBlock);
    }
  }

  /** Whatever the bytes, a parsed frame is well formed, and its canonical
      form is no longer than what was consumed. */
  lemma {:induction false} ParsedIsWellFormed(buf: seq<byte>)
    requires Parse(buf).Parsed?
    ensures WellFormed(Parse(buf).frame)
    ensures |Serialize(Parse(buf).frame)| <= Parse(buf).used
  {
  }

  /** The round trip holds for the well-formed frames and for no others. */
  lemma {:induction false} RoundTripExactlyWhenWellFormed(f: Frame, rest: seq<byte>)
    ensures WellFormed(f) <==> Parse(Serialize(f) + rest) == Parsed(f, |Serialize(f)|)
  {
    if WellFormed(f) {
      SerializeThenParse(f, rest);
    } else if Parse(Serialize(f) + rest) == Parsed(f, |Serialize(f)|) {
      ParsedIsWellFormed(Serialize(f) + rest);
    }
  }

  /** Re-serializing a parsed frame and parsing again changes nothing, though
      the bytes may differ in reserved bits. */
  lemma {:induction false} ReserializeIsStable(buf: seq<byte>, rest: seq<byte>)
    requires Parse(buf).Parsed?
    ensures Parse(Serialize(Parse(buf).frame) + rest) == Parsed(Parse(buf).frame, |Serialize(Parse(buf).frame)|)
  {
    ParsedIsWellFormed(buf);
    SerializeThenParse(Parse(buf).frame, rest);
  }

  /** The bytes can differ: the reserved bit of an id is dropped. */
  lemma {:induction false} ReservedBitIsDropped(id: u32, status: u32)
    requires id < 0x8000_0000
    ensures var buf := ControlFrame(RST_STREAM, 0, BE32(id + 0x8000_0000) + BE32(status));
      Parse(buf) == Parsed(RstStream(id, status), |buf|) && Serialize(RstStream(id, status)) != buf
  {
    var payload := BE32(id + 0x8000_0000) + BE32(status);
    var buf := ControlFrame(RST_STREAM, 0, payload);
    TwoIds(id + 0x8000_0000, status, []);
    ParseControlFrame(RST_STREAM, 0, payload, []);
    assert buf + [] == buf;
    assert buf[8..12] == BE32(id + 0x8000_0000);
  }

  // ---------------------------------------------------------------------
  // When the raw bytes survive
  // ---------------------------------------------------------------------

  /** A control payload with every reserved bit zero and no byte to spare. */
  predicate CanonicalPayload(ftype: nat, payload: seq<byte>) {
    if ftype == SYN_STREAM then
      |payload| >= 10 && payload[0] < 128 && payload[4] < 128 && payload[8] % 32 == 0 && payload[9] == 0
    else if ftype == SYN_REPLY || ftype == HEADERS then |payload| >= 4 && payload[0] < 128
    else if ftype == RST_STREAM || ftype == GOAWAY then |payload| == 8 && payload[0] < 128
    else if ftype == WINDOW_UPDATE then |payload| == 8 && payload[0] < 128 && payload[4] < 128
    else if ftype == PING then |payload| == 4
    else true
  }

  predicate HasFlags(ftype: nat) { ftype == SYN_STREAM || ftype == SYN_REPLY || ftype == HEADERS }

  /** Data frames have no reserved bits; of the control frames, only those that
      open or answer streams or carry headers may have flags. */
  predicate Canonical(header: seq<byte>, payload: seq<byte>)
    requires |header| == 8
  {
    header[0] >= 128 ==>
      var ftype := FromBE16(header[2..4]);
      CanonicalPayload(ftype, payload) && (HasFlags(ftype) || header[4] == 0)
  }

  lemma {:induction false} Low31Survives(b: seq<byte>)
    requires |b| == 4
    ensures BE32(Low31(FromBE32(b))) == b <==> b[0] < 128
  {
    var n := FromBE32(b);
    BE32Inverse(b);
    assert n == 65536 * FromBE16(b[..2]) + FromBE16(b[2..]) && FromBE16(b[..2]) == 256 * (b[0] as int) + b[1] as int;
    if b[0] < 128 {
      assert Low31(n) == n;
    } else {
      BE32RoundTrip(Low31(n));
      assert Low31(n) != n;
    }
  }

  lemma {:induction false} LengthInverse(b: seq<byte>)
    requires |b| == 3
    ensures LengthBytes(LengthValue(b)) == b
  {
    var n := LengthValue(b);
    assert n / 256 == 256 * (b[0] as int) + b[1] as int;
    assert n / 65536 == b[0] as int;
  }

  lemma {:induction false} BE16Inverse(b: seq<byte>)
    requires |b| == 2
    ensures BE16(FromBE16(b)) == b
  {
    assert FromBE16(b) / 256 == b[0] as int;
  }

  /** The bytes of a control frame, rebuilt from its type, flags and payload. */
  lemma {:induction false} ControlBytes(buf: seq<byte>)
    requires |buf| >= 8 && buf[0] >= 128 && FromBE16([buf[0] % 128, buf[1]]) == SPDY_VERSION && |buf| >= 8 + LengthOf(buf)
    ensures var total := 8 + LengthOf(buf);
      buf[..total] == ControlFrame(FromBE16(buf[2..4]), buf[4], buf[8..total])
  {
    var total := 8 + LengthOf(buf);
    BE16Inverse(buf[2..4]);
    LengthInverse(buf[5..8]);
    assert buf[0] == 128 && buf[1] == 3;
    assert buf[..total] == [buf[0], buf[1]] + buf[2..4] + [buf[4]] + buf[5..8] + buf[8..total];
  }

  lemma {:induction false} DataBytes(buf: seq<byte>)
    requires |buf| >= 8 && buf[0] < 128 && |buf| >= 8 + LengthOf(buf)
    ensures var total := 8 + LengthOf(buf);
      buf[..total] == DataFrame(Low31(IdAt(buf, 0)), buf[4], buf[8..total])
  {
    var total := 8 + LengthOf(buf);
    Low31Survives(buf[0..4]);
    LengthInverse(buf[5..8]);
    assert Low31(Low31(IdAt(buf, 0))) == Low31(IdAt(buf, 0));
    assert buf[..total] == buf[0..4] + [buf[4]] + buf[5..8] + buf[8..total];
  }

  lemma {:induction false} ControlFrameIsInjective(ftype: nat, f: byte, p: seq<byte>, g: byte, q: seq<byte>)
    requires ftype < 65536
    ensures ControlFrame(ftype, f, p) == ControlFrame(ftype, g, q) <==> f == g && p == q
  {
    var s, t := ControlFrame(ftype, f, p), ControlFrame(ftype, g, q);
    assert s[4] == f && t[4] == g && s[8..] == p && t[8..] == q;
  }

  /** What serializing a decoded control frame writes as its flags and payload. */
  function KeptFlags(ftype: nat, flags: byte): byte { if HasFlags(ftype) then flags else 0 }

  function KeptPayload(ftype: nat, payload: seq<byte>): seq<byte>
    requires DecodeControl(ftype, 0, payload).Good?
  {
    if ftype == SYN_STREAM then
      BE32(Low31(IdAt(payload, 0))) + BE32(Low31(IdAt(payload, 4)))
      + [PriorityByte(PriorityOf(payload[8])), 0] + payload[10..]
    else if ftype == SYN_REPLY || ftype == HEADERS then BE32(Low31(IdAt(payload, 0))) + payload[4..]
    else if ftype == RST_STREAM || ftype == GOAWAY then BE32(Low31(IdAt(payload, 0))) + BE32(IdAt(payload, 4))
    else if ftype == WINDOW_UPDATE then BE32(Low31(IdAt(payload, 0))) + BE32(Low31(IdAt(payload, 4)))
    else if ftype == PING then BE32(IdAt(payload, 0))
    else payload
  }

  lemma {:induction false} SerializeDecoded(ftype: nat, flags: byte, payload: seq<byte>)
    requires ftype < 65536 && DecodeControl(ftype, flags, payload).Good?
    ensures DecodeControl(ftype, 0, payload).Good?
    ensures Serialize(DecodeControl(ftype, flags, payload).frame)
         == ControlFrame(ftype, KeptFlags(ftype, flags), KeptPayload(ftype, payload))
  {
    if ftype == SYN_STREAM {
      SerializeSynStream(flags, payload);
    } else if ftype == SYN_REPLY || ftype == HEADERS {
      SerializeBlockFrame(ftype, flags, payload);
    } else if ftype == WINDOW_UPDATE {
      SerializeWindowUpdate(flags, payload);
    } else if ftype == RST_STREAM || ftype == GOAWAY {
      Low31Twice(IdAt(payload, 0));
    }
  }

  lemma Low31Twice(x: u32)
    ensures Low31(Low31(x)) == Low31(x)
  {
  }

  lemma {:induction false} SerializeSynStream(flags: byte, payload: seq<byte>)
    requires |payload| >= 10
    ensures Serialize(DecodeControl(SYN_STREAM, flags, payload).frame)
         == ControlFrame(SYN_STREAM, flags, KeptPayload(SYN_STREAM, payload))
  {
    Low31Twice(IdAt(payload, 0));
    Low31Twice(IdAt(payload, 4));
  }

  lemma {:induction false} SerializeBlockFrame(ftype: nat, flags: byte, payload: seq<byte>)
    requires (ftype == SYN_REPLY || ftype == HEADERS) && |payload| >= 4
    ensures Serialize(DecodeControl(ftype, flags, payload).frame) == ControlFrame(ftype, flags, KeptPayload(ftype, payload))
  {
    Low31Twice(IdAt(payload, 0));
  }

  lemma {:induction false} SerializeWindowUpdate(flags: byte, payload: seq<byte>)
    requires |payload| >= 8
    ensures Serialize(DecodeControl(WINDOW_UPDATE, flags, payload).frame)
         == ControlFrame(WINDOW_UPDATE, 0, KeptPayload(WINDOW_UPDATE, payload))
  {
    Low31Twice(IdAt(payload, 0));
    Low31Twice(IdAt(payload, 4));
  }

  lemma {:induction false} SynStreamSurvives(payload: seq<byte>)
    requires |payload| >= 10
    ensures KeptPayload(SYN_STREAM, payload) == payload <==> CanonicalPayload(SYN_STREAM, payload)
  {
    var a, b := payload[0..4], payload[4..8];
    Low31Survives(a);
    Low31Survives(b);
    var kept := KeptPayload(SYN_STREAM, payload);
    var p := PriorityByte(PriorityOf(payload[8]));
    assert payload == a + b + [payload[8], payload[9]] + payload[10..];
    assert kept[0..4] == BE32(Low31(IdAt(payload, 0))) && kept[4..8] == BE32(Low31(IdAt(payload, 4)));
    assert kept[8] == p && kept[9] == 0;
    PrioritySurvives(payload[8]);
  }

  lemma {:induction false} PrioritySurvives(b: byte)
    ensures PriorityByte(PriorityOf(b)) == b <==> b % 32 == 0
  {
    assert b as int == 32 * (b as int / 32) + b as int % 32;
  }

  lemma {:induction false} BlockSurvives(ftype: nat, payload: seq<byte>)
    requires (ftype == SYN_REPLY || ftype == HEADERS) && |payload| >= 4
    ensures KeptPayload(ftype, payload) == payload <==> CanonicalPayload(ftype, payload)
  {
    Low31Survives(payload[0..4]);
    assert payload == payload[0..4] + payload[4..];
    assert KeptPayload(ftype, payload)[0..4] == BE32(Low31(IdAt(payload, 0)));
  }

  lemma {:induction false} FixedSurvives(ftype: nat, payload: seq<byte>)
    requires (ftype == RST_STREAM || ftype == GOAWAY || ftype == WINDOW_UPDATE) && |payload| >= 8
    ensures KeptPayload(ftype, payload) == payload <==> CanonicalPayload(ftype, payload)
  {
    var a, b := payload[0..4], payload[4..8];
    Low31Survives(a);
    Low31Survives(b);
    BE32Inverse(b);
    var kept := KeptPayload(ftype, payload);
    assert kept[0..4] == BE32(Low31(IdAt(payload, 0)));
    assert kept[4..8] == if ftype == WINDOW_UPDATE then BE32(Low31(IdAt(payload, 4))) else BE32(IdAt(payload, 4));
    if |payload| == 8 { assert payload == a + b; }
  }

  lemma {:induction false} PingSurvives(payload: seq<byte>)
    requires |payload| >= 4
    ensures KeptPayload(PING, payload) == payload <==> CanonicalPayload(PING, payload)
  {
    BE32Inverse(payload[0..4]);
    if |payload| == 4 { assert payload[0..4] == payload; }
  }

  /** Serializing a parsed frame gives back its own bytes exactly when the
      reserved bits, the unused slot and priority bits and the flags of
      flagless frames are zero, and fixed payloads have their exact length. */
  lemma {:induction false} BytesSurviveExactlyWhenCanonical(buf: seq<byte>)
    requires Parse(buf).Parsed?
    ensures var (f, n) := (Parse(buf).frame, Parse(buf).used);
      Serialize(f) == buf[..n] <==> Canonical(buf[..8], buf[8..n])
  {
    var n := Parse(buf).used;
    var header, payload := buf[..8], buf[8..n];
    assert header[2..4] == buf[2..4] && header[0..4] == buf[0..4];
    if buf[0] < 128 {
      DataBytes(buf);
    } else {
      ControlBytes(buf);
      ControlSurvives(FromBE16(buf[2..4]), buf[4], payload);
    }
  }

  lemma {:induction false} ControlSurvives(ftype: nat, flags: byte, payload: seq<byte>)
    requires ftype < 65536 && DecodeControl(ftype, flags, payload).Good?
    ensures Serialize(DecodeControl(ftype, flags, payload).frame) == ControlFrame(ftype, flags, payload)
       <==> CanonicalPayload(ftype, payload) && (HasFlags(ftype) || flags == 0)
  {
    SerializeDecoded(ftype, flags, payload);
    ControlFrameIsInjective(ftype, KeptFlags(ftype, flags), KeptPayload(ftype, payload), flags, payload);
    PayloadSurvives(ftype, payload);
  }

  lemma {:induction false} PayloadSurvives(ftype: nat, payload: seq<byte>)
    requires DecodeControl(ftype, 0, payload).Good?
    ensures KeptPayload(ftype, payload) == payload <==> CanonicalPayload(ftype, payload)
  {
    if ftype == SYN_STREAM {
      SynStreamSurvives(payload);
    } else if ftype == SYN_REPLY || ftype == HEADERS {
      BlockSurvives(ftype, payload);
    } else if ftype == PING {
      PingSurvives(payload);
    } else if ftype != SETTINGS {
      FixedSurvives(ftype, payload);
    }
  }

  /** Every proper prefix of a well-formed frame asks for more. */
  lemma {:induction false} PrefixNeedsMore(f: Frame, k: nat)
    requires WellFormed(f) && k < |Serialize(f)|
    ensures Parse(Serialize(f)[..k]) == NeedMore
  {
    var s := Serialize(f);
    SerializeThenParse(f, []);
    assert s + [] == s;
    if k >= 8 { assert s[..k][5..8] == s[5..8]; }
  }

  // ---------------------------------------------------------------------
  // The frames on the wire, byte by byte
  // ---------------------------------------------------------------------

  /** The 32-bit number whose bytes stand at a position, high byte first. */
  predicate NumberAt(s: seq<byte>, at: nat, n: nat) {
    at + 4 <= |s| && 16777216 * s[at] as int + 65536 * s[at + 1] as int + 256 * s[at + 2] as int + s[at + 3] as int == n
  }

  /** A control frame of this type and these flags: the control bit and
      version 3, the type, the flags, and the length of the payload. */
  predicate ControlAt(s: seq<byte>, ftype: byte, flags: byte) {
    && |s| >= 8 && s[..5] == [128, 3, 0, ftype, flags]
    && 65536 * s[5] as int + 256 * s[6] as int + s[7] as int == |s| - 8
  }

  /** A data frame: the stream without control bit, the flags, and the length. */
  predicate DataAt(s: seq<byte>, id: nat, flags: byte) {
    && |s| >= 8 && NumberAt(s, 0, id) && s[4] == flags
    && 65536 * s[5] as int + 256 * s[6] as int + s[7] as int == |s| - 8
  }

  lemma {:induction false} BytesOfNumber(n: u32)
    ensures NumberAt(BE32(n), 0, n)
  {
    BE32RoundTrip(n);
    var b := BE32(n);
    assert b[..2] == [b[0], b[1]] && b[2..] == [b[2], b[3]];
  }

  lemma {:induction false} NumberStands(before: seq<byte>, n: u32, rest: seq<byte>)
    ensures NumberAt(before + BE32(n) + rest, |before|, n)
  {
    BytesOfNumber(n);
    var s := before + BE32(n) + rest;
    assert forall k :: 0 <= k < 4 ==> s[|before| + k] == BE32(n)[k];
  }

  lemma {:induction false} ControlStands(ftype: byte, flags: byte, payload: seq<byte>)
    requires |payload| < 0x100_0000
    ensures ControlAt(ControlFrame(ftype, flags, payload), ftype, flags) && ControlFrame(ftype, flags, payload)[8..] == payload
  {
    var s := ControlFrame(ftype, flags, payload);
    LengthRoundTrip(|payload|);
    assert BE16(ftype) == [0, ftype];
    assert s[..5] == [128, 3] + BE16(ftype) + [flags];
    assert s[5..8] == LengthBytes(|payload|);
  }

  lemma {:induction false} DataStands(id: u32, flags: byte, data: seq<byte>)
    requires id < 0x8000_0000 && |data| < 0x100_0000
    ensures DataAt(DataFrame(id, flags, data), id, flags) && DataFrame(id, flags, data)[8..] == data
  {
    var s := DataFrame(id, flags, data);
    LengthRoundTrip(|data|);
    NumberStands([], id, [flags] + LengthBytes(|data|) + data);
    assert s == [] + BE32(id) + ([flags] + LengthBytes(|data|) + data);
    assert s[5..8] == LengthBytes(|data|);
  }

  /** A control frame with one number at the front of its payload. */
  lemma {:induction false} OneStands(ftype: byte, flags: byte, a: u32, rest: seq<byte>)
    requires 4 + |rest| < 0x100_0000
    ensures var s := ControlFrame(ftype, flags, BE32(a) + rest);
      ControlAt(s, ftype, flags) && NumberAt(s, 8, a) && s[12..] == rest
  {
    var s := ControlFrame(ftype, flags, BE32(a) + rest);
    ControlStands(ftype, flags, BE32(a) + rest);
    BytesOfNumber(a);
    assert forall k :: 0 <= k < 4 ==> s[8 + k] == s[8..][k] == BE32(a)[k];
    assert s[12..] == s[8..][4..];
  }

  /** And with two. */
  lemma {:induction false} TwoStand(ftype: byte, flags: byte, a: u32, b: u32, rest: seq<byte>)
    requires 8 + |rest| < 0x100_0000
    ensures var s := ControlFrame(ftype, flags, BE32(a) + BE32(b) + rest);
      ControlAt(s, ftype, flags) && NumberAt(s, 8, a) && NumberAt(s, 12, b) && s[16..] == rest
  {
    assert BE32(a) + BE32(b) + rest == BE32(a) + (BE32(b) + rest);
    OneStands(ftype, flags, a, BE32(b) + rest);
    var s := ControlFrame(ftype, flags, BE32(a) + BE32(b) + rest);
    BytesOfNumber(b);
    assert forall k :: 0 <= k < 4 ==> s[12 + k] == s[12..][k] == BE32(b)[k];
    assert s[16..] == s[12..][4..];
  }

  /** Where the fields of every well-formed frame stand on the wire: SYN_STREAM
      is type 1, SYN_REPLY 2, RST_STREAM 3, SETTINGS 4, PING 6, GOAWAY 7,
      HEADERS 8 and WINDOW_UPDATE 9. */
  predicate StandsOnWire(f: Frame, s: seq<byte>) {
    match f
    case SynStream(id, assoc, priority, flags, block) =>
      && ControlAt(s, 1, flags) && NumberAt(s, 8, id) && NumberAt(s, 12, assoc)
      && |s| >= 18 && s[16] as int == 32 * priority && s[17] == 0 && s[18..] == block
    case SynReply(id, flags, block) => ControlAt(s, 2, flags) && NumberAt(s, 8, id) && s[12..] == block
    case RstStream(id, status) => ControlAt(s, 3, 0) && |s| == 16 && NumberAt(s, 8, id) && NumberAt(s, 12, status)
    case Settings(payload) => ControlAt(s, 4, 0) && s[8..] == payload
    case Ping(id) => ControlAt(s, 6, 0) && |s| == 12 && NumberAt(s, 8, id)
    case GoAway(id, status) => ControlAt(s, 7, 0) && |s| == 16 && NumberAt(s, 8, id) && NumberAt(s, 12, status)
    case Headers(id, flags, block) => ControlAt(s, 8, flags) && NumberAt(s, 8, id) && s[12..] == block
    case WindowUpdate(id, delta) => ControlAt(s, 9, 0) && |s| == 16 && NumberAt(s, 8, id) && NumberAt(s, 12, delta)
    case Data(id, flags, data) => DataAt(s, id, flags) && s[8..] == data
  }

  lemma {:induction false} SynStreamStands(id: u32, assoc: u32, priority: byte, flags: byte, block: seq<byte>)
    requires priority < 8 && 10 + |block| < 0x100_0000
    ensures var s := ControlFrame(SYN_STREAM, flags, BE32(id) + BE32(assoc) + [PriorityByte(priority), 0] + block);
      && ControlAt(s, 1, flags) && NumberAt(s, 8, id) && NumberAt(s, 12, assoc)
      && |s| >= 18 && s[16] as int == 32 * priority && s[17] == 0 && s[18..] == block
  {
    var rest := [PriorityByte(priority), 0] + block;
    assert BE32(id) + BE32(assoc) + [PriorityByte(priority), 0] + block == BE32(id) + BE32(assoc) + rest;
    TwoStand(1, flags, id, assoc, rest);
    var s := ControlFrame(SYN_STREAM, flags, BE32(id) + BE32(assoc) + rest);
    assert s[16] == s[16..][0] && s[17] == s[16..][1] && s[18..] == s[16..][2..];
  }

  lemma {:induction false} PairStands(ftype: byte, a: u32, b: u32)
    ensures var s := ControlFrame(ftype, 0, BE32(a) + BE32(b));
      ControlAt(s, ftype, 0) && |s| == 16 && NumberAt(s, 8, a) && NumberAt(s, 12, b)
  {
    assert BE32(a) + BE32(b) + [] == BE32(a) + BE32(b);
    TwoStand(ftype, 0, a, b, []);
  }

  lemma {:induction false} NumberStandsAlone(ftype: byte, a: u32)
    ensures var s := ControlFrame(ftype, 0, BE32(a)); ControlAt(s, ftype, 0) && |s| == 12 && NumberAt(s, 8, a)
  {
    assert BE32(a) + [] == BE32(a);
    OneStands(ftype, 0, a, []);
  }

  predicate Opens(f: Frame) { f.SynStream? || f.SynReply? || f.Headers? }

  lemma {:induction false} OpeningLayout(f: Frame)
    requires WellFormed(f) && Opens(f)
    ensures StandsOnWire(f, Serialize(f))
  {
    match f
    case SynStream(id, assoc, priority, flags, block) =>
      assert Low31(id) == id && Low31(assoc) == assoc;
      SynStreamStands(id, assoc, priority, flags, block);
    case SynReply(id, flags, block) =>
      assert Low31(id) == id;
      OneStands(2, flags, id, block);
    case Headers(id, flags, block) =>
      assert Low31(id) == id;
      OneStands(8, flags, id, block);
  }

  lemma {:induction false} PairLayout(f: Frame)
    requires WellFormed(f) && (f.RstStream? || f.GoAway? || f.WindowUpdate?)
    ensures StandsOnWire(f, Serialize(f))
  {
    match f
    case RstStream(id, status) =>
      assert Low31(id) == id;
      PairStands(3, id, status);
    case GoAway(id, status) =>
      assert Low31(id) == id;
      PairStands(7, id, status);
    case WindowUpdate(id, delta) =>
      assert Low31(id) == id && Low31(delta) == delta;
      PairStands(9, id, delta);
  }

  /** Every well-formed frame stands on the wire like that. */
  lemma {:induction false} WireLayout(f: Frame)
    requires WellFormed(f)
    ensures StandsOnWire(f, Serialize(f))
  {
    match f
    case Settings(payload) => ControlStands(4, 0, payload);
    case Ping(id) => NumberStandsAlone(6, id);
    case Data(id, flags, data) => DataStands(id, flags, data);
    case _ => if Opens(f) { OpeningLayout(f); } else { PairLayout(f); }
  }

  // ---------------------------------------------------------------------
  // What the parser makes of any bytes
  // ---------------------------------------------------------------------

  /** The bytes of one frame, as long as its header says. */
  predicate OneFrame(s: seq<byte>) {
    |s| >= 8 && 65536 * s[5] as int + 256 * s[6] as int + s[7] as int == |s| - 8
  }

  /** A control frame of version 3 and this type. */
  predicate IsControl(s: seq<byte>, ftype: nat)
    requires |s| >= 8
  {
    s[0] == 128 && s[1] == 3 && 256 * s[2] as int + s[3] as int == ftype
  }

  /** The number at a position, high byte first. */
  function NumberOf(s: seq<byte>, at: nat): nat
    requires at + 4 <= |s|
  {
    16777216 * s[at] as int + 65536 * s[at + 1] as int + 256 * s[at + 2] as int + s[at + 3] as int
  }

  /** The 31 bits of the number at a position. */
  function Id(s: seq<byte>, at: nat): nat
    requires at + 4 <= |s|
  {
    NumberOf(s, at) % 0x8000_0000
  }

  /** How many payload bytes a control frame of this type needs. */
  function Needs(ftype: nat): nat {
    if ftype == 1 then 10
    else if ftype == 3 || ftype == 7 || ftype == 9 then 8
    else if ftype == 2 || ftype == 6 || ftype == 8 then 4
    else 0
  }

  predicate Known(ftype: nat) { 1 <= ftype <= 9 && ftype != 5 }

  /** What these bytes say, whatever their reserved bits. */
  predicate Says(s: seq<byte>, f: Frame)
    requires OneFrame(s)
  {
    match f
    case Data(id, flags, data) => s[0] < 128 && id == Id(s, 0) && flags == s[4] && data == s[8..]
    case SynStream(id, assoc, priority, flags, block) =>
      && IsControl(s, 1) && |s| >= 18 && id == Id(s, 8) && assoc == Id(s, 12)
      && priority as int == s[16] as int / 32 && flags == s[4] && block == s[18..]
    case SynReply(id, flags, block) => IsControl(s, 2) && |s| >= 12 && id == Id(s, 8) && flags == s[4] && block == s[12..]
    case RstStream(id, status) => IsControl(s, 3) && |s| >= 16 && id == Id(s, 8) && status == NumberOf(s, 12)
    case Settings(payload) => IsControl(s, 4) && payload == s[8..]
    case Ping(id) => IsControl(s, 6) && |s| >= 12 && id == NumberOf(s, 8)
    case GoAway(id, status) => IsControl(s, 7) && |s| >= 16 && id == Id(s, 8) && status == NumberOf(s, 12)
    case Headers(id, flags, block) => IsControl(s, 8) && |s| >= 12 && id == Id(s, 8) && flags == s[4] && block == s[12..]
    case WindowUpdate(id, delta) => IsControl(s, 9) && |s| >= 16 && id == Id(s, 8) && delta == Id(s, 12)
  }

  lemma {:induction false} NumberIsRead(s: seq<byte>, at: nat)
    requires at + 4 <= |s|
    ensures IdAt(s, at) == NumberOf(s, at)
  {
    var b := s[at..at + 4];
    assert b[..2] == [b[0], b[1]] && b[2..] == [b[2], b[3]];
  }

  lemma {:induction false} NumbersInPayload(s: seq<byte>, at: nat)
    requires |s| >= 8 && at + 12 <= |s|
    ensures IdAt(s[8..], at) == NumberOf(s, at + 8)
  {
    NumberIsRead(s[8..], at);
  }

  lemma {:induction false} ControlIsRead(s: seq<byte>)
    requires OneFrame(s) && s[0] == 128 && s[1] == 3
    ensures Decode(s[..8], s[8..]) == DecodeControl(256 * s[2] as int + s[3] as int, s[4], s[8..])
  {
    assert s[..8][2..4] == [s[2], s[3]] && s[..8][0] == 128 && s[..8][1] == 3;
    assert FromBE16([0, 3]) == 3;
  }

  lemma {:induction false} VersionIsRead(s: seq<byte>)
    requires OneFrame(s) && s[0] >= 128
    ensures var version := FromBE16([s[0] % 128, s[1]]);
      && version == 256 * (s[0] as int - 128) + s[1] as int
      && (version == 3 <==> s[0] == 128 && s[1] == 3)
  {
  }

  /** Each control frame of a known type with payload enough is parsed as what
      it says. */
  lemma {:induction false} KnownIsRead(s: seq<byte>)
    requires OneFrame(s) && s[0] == 128 && s[1] == 3
    requires var ftype := 256 * s[2] as int + s[3] as int; Known(ftype) && |s| - 8 >= Needs(ftype)
    ensures var d := DecodeControl(256 * s[2] as int + s[3] as int, s[4], s[8..]); d.Good? && Says(s, d.frame)
  {
    if |s| >= 12 { NumbersInPayload(s, 0); }
    if |s| >= 16 { NumbersInPayload(s, 4); }
    if |s| >= 18 { assert s[8..][8] == s[16] && s[8..][10..] == s[18..]; }
    if |s| >= 12 { assert s[8..][4..] == s[12..]; }
  }

  /** Any bytes: they ask for more until the length of their header is there.
      Then a data frame is parsed as what it says; so is a control frame of
      version 3 and a known type whose payload is long enough; and every other
      control frame fails, by its version, its type or its payload. */
  lemma {:induction false} ParseExactly(s: seq<byte>, rest: seq<byte>)
    requires OneFrame(s)
    ensures match Parse(s + rest)
      case NeedMore => false
      case Parsed(f, used) => used == |s| && Says(s, f)
      case Failed(UnsupportedVersion(v)) => s[0] >= 128 && v != 3 && v == 256 * (s[0] as int - 128) + s[1] as int
      case Failed(UnknownType(t)) => IsControl(s, t) && !Known(t)
      case Failed(ShortPayload(t)) => IsControl(s, t) && Known(t) && |s| - 8 < Needs(t)
  {
    var buf := s + rest;
    assert buf[5..8] == s[5..8] && LengthOf(buf) == |s| - 8;
    assert buf[..8] == s[..8] && buf[8..|s|] == s[8..];
    if s[0] < 128 {
      NumberIsRead(s[..8], 0);
    } else {
      VersionIsRead(s);
      if s[0] == 128 && s[1] == 3 {
        ControlIsRead(s);
        var ftype := 256 * s[2] as int + s[3] as int;
        if Known(ftype) && |s| - 8 >= Needs(ftype) { KnownIsRead(s); }
      }
    }
  }

  /** Only a proper beginning of a frame asks for more. */
  lemma {:induction false} NeedMoreExactly(buf: seq<byte>)
    ensures Parse(buf).NeedMore? <==> forall n :: 0 <= n <= |buf| ==> !OneFrame(buf[..n])
  {
    forall n | 0 <= n <= |buf| && OneFrame(buf[..n])
      ensures !Parse(buf).NeedMore?
    {
      ParseExactly(buf[..n], buf[n..]);
      assert buf == buf[..n] + buf[n..];
    }
    if !Parse(buf).NeedMore? { assert OneFrame(buf[..8 + LengthOf(buf)]); }
  }
}

/** The log a container's output is teed into: raw chunks of two streams are
    cut into lines, each line becomes one record, and both streams share one
    file. */
module CriLog {

  import opened Options
  import opened Bytes
  import opened Calendar
  import opened Stamp

  // ---------------------------------------------------------------------
  // Lines
  // ---------------------------------------------------------------------

  /** The position of the first newline, or the length when there is none. */
  function FirstNewline(s: seq<byte>): (k: nat)
    ensures k <= |s| && NEWLINE !in s[..k]
    ensures k < |s| ==> s[k] == NEWLINE
  {
    if s == [] || s[0] == NEWLINE then 0 else
      var k := 1 + FirstNewline(s[1..]);
      assert s[..k] == [s[0]] + s[1..][..k - 1];
      k
  }

  lemma {:induction false} FirstNewlineIs(line: seq<byte>, rest: seq<byte>)
    requires NEWLINE !in line
    ensures FirstNewline(line + [NEWLINE] + rest) == |line|
  {
    if line != [] {
      assert (line + [NEWLINE] + rest)[1..] == line[1..] + [NEWLINE] + rest;
      FirstNewlineIs(line[1..], rest);
    }
  }

  /** The whole output cut after every newline, as if it had come in one piece. */
  function Framed(s: seq<byte>): seq<seq<byte>>
    decreases |s|
  {
    if s == [] then []
    else if FirstNewline(s) == |s| then [s]
    else var k := FirstNewline(s); [s[..k + 1]] + Framed(s[k + 1..])
  }

  lemma {:induction false} FramedKeepsBytes(s: seq<byte>)
    ensures Flatten(Framed(s)) == s
    decreases |s|
  {
    if s != [] && FirstNewline(s) < |s| {
      var k := FirstNewline(s);
      FramedKeepsBytes(s[k + 1..]);
      assert ([s[..k + 1]] + Framed(s[k + 1..]))[1..] == Framed(s[k + 1..]);
    }
  }

  /** Every piece but the last ends with a newline, and none holds one before
      its end. */
  lemma {:induction false} FramedIntoLines(s: seq<byte>, i: nat)
    requires i < |Framed(s)|
    ensures var piece := Framed(s)[i];
      && piece != [] && 10 !in piece[..|piece| - 1]
      && (i < |Framed(s)| - 1 ==> piece[|piece| - 1] == 10)
    decreases |s|
  {
    var k := FirstNewline(s);
    if k < |s| {
      assert s[..k + 1][..k] == s[..k];
      if i > 0 { FramedIntoLines(s[k + 1..], i - 1); }
    } else {
      assert s[..|s| - 1] <= s[..k];
      forall b | b in s[..|s| - 1] ensures b in s[..k] {}
    }
  }

  /** Bytes still to come do not move the first complete line. */
  lemma {:induction false} FramedStep(pending: seq<byte>, rest: seq<byte>)
    requires FirstNewline(pending) < |pending|
    ensures var k := FirstNewline(pending);
      Framed(pending + rest) == [pending[..k + 1]] + Framed(pending[k + 1..] + rest)
  {
    var k := FirstNewline(pending);
    var s := pending + rest;
    assert s == pending[..k] + [NEWLINE] + (pending[k + 1..] + rest);
    FirstNewlineIs(pending[..k], pending[k + 1..] + rest);
    assert s[..k + 1] == pending[..k + 1] && s[k + 1..] == pending[k + 1..] + rest;
  }

  // ---------------------------------------------------------------------
  // Records
  // ---------------------------------------------------------------------

  const FULL: byte := 70
  const PARTIAL: byte := 80
  const STDOUT: seq<byte> := [115, 116, 100, 111, 117, 116]
  const STDERR: seq<byte> := [115, 116, 100, 101, 114, 114]

  predicate EndsLine(data: seq<byte>) { data != [] && data[|data| - 1] == NEWLINE }

  /** A log line with this stamp. */
  function Line(stamp: seq<byte>, stream: seq<byte>, data: seq<byte>): seq<byte> {
    var tag := if EndsLine(data) then FULL else PARTIAL;
    stamp + [SPACE] + stream + [SPACE] + [tag] + [SPACE] + data + if EndsLine(data) then [] else [NEWLINE]
  }

  /** `cri_log_line`, with its clock reading as a parameter. */
  function LogLine(secs: nat, nanos: nat, stream: seq<byte>, data: seq<byte>): seq<byte>
    requires secs < U64
  {
    Line(StampAt(secs, nanos), stream, data)
  }

  /** A log record as a reader of the file sees it; `text` is without its newline. */
  datatype Record = Record(stamp: seq<byte>, stream: seq<byte>, full: bool, text: seq<byte>)

  /** The bytes of output a record stands for. */
  function Undone(r: Record): seq<byte> { if r.full then r.text + [NEWLINE] else r.text }

  /** The part of a word before the first space, and what follows that space. */
  function SplitWord(s: seq<byte>): Option<(seq<byte>, seq<byte>)> {
    if s == [] then None
    else if s[0] == SPACE then Some(([], s[1..]))
    else match SplitWord(s[1..])
      case None => None
      case Some((w, rest)) => Some(([s[0]] + w, rest))
  }

  function ReadRecord(line: seq<byte>): Option<Record> {
    match SplitWord(line)
    case None => None
    case Some((stamp, afterStamp)) =>
      match SplitWord(afterStamp)
      case None => None
      case Some((stream, afterStream)) =>
        match SplitWord(afterStream)
        case None => None
        case Some((tag, text)) =>
          if tag == [FULL] then Some(Record(stamp, stream, true, text))
          else if tag == [PARTIAL] then Some(Record(stamp, stream, false, text))
          else None
  }

  /** A reader's view of the file: split on newlines, read every line. */
  function ReadLog(file: seq<byte>): Option<seq<Record>>
    decreases |file|
  {
    if file == [] then Some([])
    else
      var k := FirstNewline(file);
      if k == |file| then None
      else match ReadRecord(file[..k])
        case None => None
        case Some(r) =>
          match ReadLog(file[k + 1..])
          case None => None
          case Some(rs) => Some([r] + rs)
  }

  lemma {:induction false} SplitWordAt(w: seq<byte>, rest: seq<byte>)
    requires SPACE !in w
    ensures SplitWord(w + [SPACE] + rest) == Some((w, rest))
  {
    var s := w + [SPACE] + rest;
    if w == [] {
      assert s[1..] == rest;
    } else {
      assert s[1..] == w[1..] + [SPACE] + rest;
      SplitWordAt(w[1..], rest);
      assert [w[0]] + w[1..] == w;
    }
  }

  /** A piece the tee logs: at least one byte, and no newline but at the end. */
  predicate Piece(data: seq<byte>) { data != [] && NEWLINE !in data[..|data| - 1] }

  function Text(data: seq<byte>): seq<byte> { if EndsLine(data) then data[..|data| - 1] else data }

  function RecordOf(stamp: seq<byte>, stream: seq<byte>, data: seq<byte>): (r: Record)
    ensures Undone(r) == data
  {
    Record(stamp, stream, EndsLine(data), Text(data))
  }

  /** A log line byte by byte: the stamp, the stream's name, "F" exactly when
      the data ended its line and "P" otherwise, and the text, with single
      spaces between them and one newline at the end. */
  lemma {:induction false} LineInBytes(stamp: seq<byte>, stream: seq<byte>, data: seq<byte>)
    ensures Line(stamp, stream, data) ==
      if data != [] && data[|data| - 1] == 10
      then stamp + [32] + stream + [32, 70, 32] + data[..|data| - 1] + [10]
      else stamp + [32] + stream + [32, 80, 32] + data + [10]
  {
    var head := stamp + [32] + stream;
    if data != [] && data[|data| - 1] == 10 {
      assert data == data[..|data| - 1] + [10];
      assert head + [32, 70, 32] + data[..|data| - 1] + [10] == head + [32] + [70] + [32] + data;
    } else {
      assert head + [32, 80, 32] + data + [10] == head + [32] + [80] + [32] + data + [10];
    }
  }

  predicate OneWord(w: seq<byte>) { SPACE !in w && NEWLINE !in w }

  /** A logged line without its newline. */
  function Body(stamp: seq<byte>, stream: seq<byte>, tag: byte, text: seq<byte>): seq<byte> {
    stamp + [SPACE] + (stream + [SPACE] + ([tag] + [SPACE] + text))
  }

  lemma {:induction false} LineIsBody(stamp: seq<byte>, stream: seq<byte>, data: seq<byte>)
    ensures Line(stamp, stream, data)
         == Body(stamp, stream, if EndsLine(data) then FULL else PARTIAL, Text(data)) + [NEWLINE]
  {
    if EndsLine(data) { assert data == Text(data) + [NEWLINE]; }
  }

  lemma {:induction false} BodyReadsBack(stamp: seq<byte>, stream: seq<byte>, tag: byte, text: seq<byte>)
    requires OneWord(stamp) && OneWord(stream) && (tag == FULL || tag == PARTIAL)
    ensures ReadRecord(Body(stamp, stream, tag, text)) == Some(Record(stamp, stream, tag == FULL, text))
  {
    SplitWordAt(stamp, stream + [SPACE] + ([tag] + [SPACE] + text));
    SplitWordAt(stream, [tag] + [SPACE] + text);
    SplitWordAt([tag], text);
  }

  lemma {:induction false} BodyIsOneLine(stamp: seq<byte>, stream: seq<byte>, tag: byte, text: seq<byte>)
    requires OneWord(stamp) && OneWord(stream) && (tag == FULL || tag == PARTIAL) && NEWLINE !in text
    ensures NEWLINE !in Body(stamp, stream, tag, text)
  {
  }

  /** A file reads as its first line, then the rest. */
  lemma {:induction false} ReadLogStep(head: seq<byte>, rest: seq<byte>)
    requires NEWLINE !in head
    ensures ReadLog(head + [NEWLINE] + rest) ==
      if ReadRecord(head).Some? && ReadLog(rest).Some? then Some([ReadRecord(head).value] + ReadLog(rest).value) else None
  {
    var file := head + [NEWLINE] + rest;
    FirstNewlineIs(head, rest);
    assert file[..|head|] == head && file[|head| + 1..] == rest;
  }

  lemma FileInLines(file: seq<byte>, k: nat, more: seq<byte>)
    requires k < |file| && file[k] == NEWLINE
    ensures file == file[..k] + [NEWLINE] + file[k + 1..]
    ensures file + more == file[..k] + [NEWLINE] + (file[k + 1..] + more)
  {
  }

  /** Appending one whole line appends one record. */
  lemma {:induction false} ReadLogAppend(file: seq<byte>, body: seq<byte>, r: Record)
    requires ReadLog(file).Some? && NEWLINE !in body && ReadRecord(body) == Some(r)
    ensures ReadLog(file + (body + [NEWLINE])) == Some(ReadLog(file).value + [r])
    decreases |file|
  {
    var line := body + [NEWLINE];
    if file == [] {
      assert file + line == body + [NEWLINE] + [];
      ReadLogStep(body, []);
      assert [r] + [] == ReadLog(file).value + [r];
    } else {
      var k := FirstNewline(file);
      var head, rest := file[..k], file[k + 1..];
      FileInLines(file, k, line);
      ReadLogStep(head, rest);
      ReadLogStep(head, rest + line);
      ReadLogAppend(rest, body, r);
      assert [ReadRecord(head).value] + (ReadLog(rest).value + [r]) == [ReadRecord(head).value] + ReadLog(rest).value + [r];
    }
  }

  lemma StreamNamesAreWords()
    ensures OneWord(STDOUT) && OneWord(STDERR) && STDOUT != STDERR
  {
    assert STDOUT[3] != STDERR[3];
  }

  lemma {:induction false} PieceReadsBack(file: seq<byte>, stamp: seq<byte>, stream: seq<byte>, data: seq<byte>)
    requires ReadLog(file).Some? && OneWord(stamp) && Piece(data) && OneWord(stream)
    ensures ReadLog(file + Line(stamp, stream, data)) == Some(ReadLog(file).value + [RecordOf(stamp, stream, data)])
  {
    var text := Text(data);
    var tag: byte := if EndsLine(data) then FULL else PARTIAL;
    TextHasNoNewline(data);
    BodyIsOneLine(stamp, stream, tag, text);
    BodyReadsBack(stamp, stream, tag, text);
    LineIsBody(stamp, stream, data);
    ReadLogAppend(file, Body(stamp, stream, tag, text), RecordOf(stamp, stream, data));
  }

  /** Logging a piece adds to the file exactly the record that stands for it. */
  lemma {:induction false} LoggedPieceReadsBack(file: seq<byte>, secs: nat, nanos: nat, stream: seq<byte>, data: seq<byte>)
    requires ReadLog(file).Some? && secs < U64 && Piece(data) && OneWord(stream)
    ensures ReadLog(file + LogLine(secs, nanos, stream, data))
         == Some(ReadLog(file).value + [RecordOf(StampAt(secs, nanos), stream, data)])
  {
    StampIsOneWord(secs, nanos);
    PieceReadsBack(file, StampAt(secs, nanos), stream, data);
  }

  lemma TextHasNoNewline(data: seq<byte>)
    requires Piece(data)
    ensures NEWLINE !in Text(data)
  {
    if !EndsLine(data) { assert data == data[..|data| - 1] + [data[|data| - 1]]; }
  }

  // ---------------------------------------------------------------------
  // One tee thread by itself
  // ---------------------------------------------------------------------

  predicate HasLine(pending: seq<byte>) { FirstNewline(pending) < |pending| }

  /** Logging the first complete line of what is pending loses nothing. */
  lemma {:induction false} LineMoves(logged: seq<seq<byte>>, pending: seq<byte>, rest: seq<byte>)
    requires HasLine(pending)
    ensures var k := FirstNewline(pending);
      logged + Framed(pending + rest) == (logged + [pending[..k + 1]]) + Framed(pending[k + 1..] + rest)
  {
    FramedStep(pending, rest);
  }

  /** The inner loop of the tee: log every complete line. */
  method DrainLines(pending: seq<byte>, ghost rest: seq<byte>) returns (lines: seq<seq<byte>>, left: seq<byte>)
    ensures !HasLine(left) && Drained(pending, rest, lines, left)
  {
    lines, left := [], pending;
    NothingDrained(pending, rest);
    while HasLine(left)
      invariant Drained(pending, rest, lines, left)
      decreases |left|
    {
      var k := FirstNewline(left);
      LineMoves(lines, left, rest);
      lines, left := lines + [left[..k + 1]], left[k + 1..];
    }
  }

  predicate Drained(pending: seq<byte>, rest: seq<byte>, lines: seq<seq<byte>>, left: seq<byte>) {
    Framed(pending + rest) == lines + Framed(left + rest)
  }

  lemma NothingDrained(pending: seq<byte>, rest: seq<byte>)
    ensures Drained(pending, rest, [], pending)
  {
  }

  lemma ChunkArrives(pending: seq<byte>, chunks: seq<seq<byte>>, i: nat)
    requires i < |chunks|
    ensures pending + Flatten(chunks[i..]) == (pending + chunks[i]) + Flatten(chunks[i + 1..])
  {
    assert chunks[i..][0] == chunks[i] && chunks[i..][1..] == chunks[i + 1..];
  }

  /** The lines of the whole output are the pieces logged so far, then the
      lines of what is pending and of the chunks still to come. */
  predicate Framing(chunks: seq<seq<byte>>, i: nat, pieces: seq<seq<byte>>, pending: seq<byte>)
    requires i <= |chunks|
  {
    Framed(Flatten(chunks)) == pieces + Framed(pending + Flatten(chunks[i..]))
  }

  lemma FramingStarts(chunks: seq<seq<byte>>)
    ensures Framing(chunks, 0, [], [])
  {
    assert chunks[0..] == chunks && [] + Flatten(chunks) == Flatten(chunks);
  }

  lemma FramingMoves(chunks: seq<seq<byte>>, i: nat, pieces: seq<seq<byte>>, pending: seq<byte>,
                     lines: seq<seq<byte>>, left: seq<byte>)
    requires i < |chunks| && Framing(chunks, i, pieces, pending)
    requires Drained(pending + chunks[i], Flatten(chunks[i + 1..]), lines, left)
    ensures Framing(chunks, i + 1, pieces + lines, left)
  {
    var tail := Framed(left + Flatten(chunks[i + 1..]));
    ChunkArrives(pending, chunks, i);
    assert pieces + (lines + tail) == (pieces + lines) + tail;
  }

  lemma FramingEnds(chunks: seq<seq<byte>>, pieces: seq<seq<byte>>, pending: seq<byte>)
    requires Framing(chunks, |chunks|, pieces, pending) && !HasLine(pending)
    ensures Framed(Flatten(chunks)) == if pending == [] then pieces else pieces + [pending]
  {
    assert pending + Flatten(chunks[|chunks|..]) == pending;
  }

  /** The loop of the tee: it fills `pending` chunk by chunk and logs what it
      can. However the output was chunked, the logged pieces are its lines. */
  method Tee(chunks: seq<seq<byte>>) returns (pieces: seq<seq<byte>>)
    ensures pieces == Framed(Flatten(chunks))
  {
    pieces := [];
    var pending: seq<byte> := [];
    FramingStarts(chunks);
    for i := 0 to |chunks|
      invariant !HasLine(pending) && Framing(chunks, i, pieces, pending)
    {
      var lines, left := DrainLines(pending + chunks[i], Flatten(chunks[i + 1..]));
      FramingMoves(chunks, i, pieces, pending, lines, left);
      pieces, pending := pieces + lines, left;
    }
    FramingEnds(chunks, pieces, pending);
    if pending != [] {
      pieces := pieces + [pending];
    }
  }
}

/** Two tee threads over one log file, interleaved freely. */
module CriLogSafety {

  import opened Options
  import opened Bytes
  import opened Calendar
  import opened Stamp
  import opened CriLog

  /** A tee thread: `todo` is what its reads will still return, `pending` the
      bytes it holds without having logged them. */
  datatype Thread = Thread(todo: seq<seq<byte>>, pending: seq<byte>, done: bool)
  datatype Stream = Out | Err
  datatype Tees = Tees(out: Thread, err: Thread, file: seq<byte>)

  /** One read, one logged line, or the flush at the end of the stream. The
      file grows only under its lock, one record at a time; the clock is read
      before the lock is taken, so stamps come in any order. */
  datatype Step =
    | Read(who: Stream)
    | Emit(who: Stream, secs: nat, nanos: nat)
    | Finish(who: Stream, secs: nat, nanos: nat)

  function Name(who: Stream): seq<byte> { if who == Out then STDOUT else STDERR }

  function Of(s: Tees, who: Stream): Thread { if who == Out then s.out else s.err }

  function With(s: Tees, who: Stream, t: Thread, file: seq<byte>): Tees {
    if who == Out then s.(out := t, file := file) else s.(err := t, file := file)
  }

  predicate Enabled(s: Tees, step: Step) {
    var t := Of(s, step.who);
    match step
    case Read(_) => !t.done && !HasLine(t.pending) && t.todo != []
    case Emit(_, secs, _) => secs < U64 && !t.done && HasLine(t.pending)
    case Finish(_, secs, _) => secs < U64 && !t.done && !HasLine(t.pending) && t.todo == []
  }

  function Apply(s: Tees, step: Step): Tees
    requires Enabled(s, step)
  {
    var t, who := Of(s, step.who), step.who;
    match step
    case Read(_) => With(s, who, t.(todo := t.todo[1..], pending := t.pending + t.todo[0]), s.file)
    case Emit(_, secs, nanos) =>
      var k := FirstNewline(t.pending);
      With(s, who, t.(pending := t.pending[k + 1..]), s.file + LogLine(secs, nanos, Name(who), t.pending[..k + 1]))
    case Finish(_, secs, nanos) =>
      With(s, who, Thread([], [], true),
           if t.pending == [] then s.file else s.file + LogLine(secs, nanos, Name(who), t.pending))
  }

  function Initial(out: seq<seq<byte>>, err: seq<seq<byte>>): Tees {
    Tees(Thread(out, [], false), Thread(err, [], false), [])
  }

  predicate Takes(s: Tees, step: Step, s': Tees) { Enabled(s, step) && s' == Apply(s, step) }

  ghost predicate IsRun(ss: seq<Tees>, steps: seq<Step>, out: seq<seq<byte>>, err: seq<seq<byte>>) {
    && |ss| == |steps| + 1
    && ss[0] == Initial(out, err)
    && forall i {:trigger steps[i]} | 0 <= i < |steps| :: Takes(ss[i], steps[i], ss[i + 1])
  }

  // ---------------------------------------------------------------------
  // What a step writes
  // ---------------------------------------------------------------------

  /** "stdout" and "stderr" */
  function NameInBytes(who: Stream): seq<byte> {
    match who
    case Out => [115, 116, 100, 111, 117, 116]
    case Err => [115, 116, 100, 101, 114, 114]
  }

  /** A step writes nothing, or one line: the first pending line of its thread,
      tagged "F", or at the end of the stream what is left without a newline,
      tagged "P". */
  lemma {:induction false} StepWritesLine(s: Tees, step: Step)
    requires Enabled(s, step)
    ensures var pending, file := Of(s, step.who).pending, Apply(s, step).file;
      match step
      case Read(_) => file == s.file
      case Emit(who, secs, nanos) =>
        exists n :: 0 <= n < |pending| && pending[n] == 10 && 10 !in pending[..n]
          && Of(Apply(s, step), who).pending == pending[n + 1..]
          && file == s.file + (StampAt(secs, nanos) + [32] + NameInBytes(who) + [32, 70, 32] + pending[..n] + [10])
      case Finish(who, secs, nanos) =>
        file == if pending == [] then s.file
                else s.file + (StampAt(secs, nanos) + [32] + NameInBytes(who) + [32, 80, 32] + pending + [10])
  {
    var pending := Of(s, step.who).pending;
    match step
    case Read(_) =>
    case Emit(who, secs, nanos) =>
      var n := FirstNewline(pending);
      var line := pending[..n + 1];
      LineInBytes(StampAt(secs, nanos), NameInBytes(who), line);
      assert line[..n] == pending[..n] && line[|line| - 1] == 10;
    case Finish(who, secs, nanos) =>
      if pending != [] {
        LineInBytes(StampAt(secs, nanos), NameInBytes(who), pending);
        NoNewlineAtEnd(pending);
      }
  }

  lemma NoNewlineAtEnd(pending: seq<byte>)
    requires !HasLine(pending) && pending != []
    ensures pending[|pending| - 1] != 10
  {
    assert pending[|pending| - 1] in pending;
  }

  // ---------------------------------------------------------------------
  // Every byte is in the file, held back, or still to be read
  // ---------------------------------------------------------------------

  /** The records of one stream, in file order. */
  function Project(rs: seq<Record>, stream: seq<byte>): seq<Record> {
    if rs == [] then []
    else Project(rs[..|rs| - 1], stream) + if rs[|rs| - 1].stream == stream then [rs[|rs| - 1]] else []
  }

  function Pieces(rs: seq<Record>): (ps: seq<seq<byte>>)
    ensures |ps| == |rs| && forall i :: 0 <= i < |rs| ==> ps[i] == Undone(rs[i])
  {
    if rs == [] then [] else [Undone(rs[0])] + Pieces(rs[1..])
  }

  lemma ProjectAppend(rs: seq<Record>, r: Record, stream: seq<byte>)
    ensures Project(rs + [r], stream) == Project(rs, stream) + if r.stream == stream then [r] else []
  {
    assert (rs + [r])[..|rs|] == rs;
  }

  lemma PiecesAppend(rs: seq<Record>, r: Record)
    ensures Pieces(rs + [r]) == Pieces(rs) + [Undone(r)]
  {
  }

  /** The lines of `total` are the pieces logged so far, then the lines of what
      is still to come. */
  predicate Accounted(file: seq<byte>, stream: seq<byte>, t: Thread, total: seq<byte>) {
    && ReadLog(file).Some?
    && Pieces(Project(ReadLog(file).value, stream)) + Framed(t.pending + Flatten(t.todo)) == Framed(total)
  }

  lemma {:induction false} ReadKeepsAccount(file: seq<byte>, stream: seq<byte>, t: Thread, total: seq<byte>)
    requires Accounted(file, stream, t, total) && t.todo != []
    ensures Accounted(file, stream, t.(todo := t.todo[1..], pending := t.pending + t.todo[0]), total)
  {
    assert t.pending + Flatten(t.todo) == (t.pending + t.todo[0]) + Flatten(t.todo[1..]);
  }

  lemma {:induction false} LogKeepsReadable(file: seq<byte>, secs: nat, nanos: nat, stream: seq<byte>, data: seq<byte>)
    requires ReadLog(file).Some? && secs < U64 && Piece(data) && OneWord(stream)
    ensures var file' := file + LogLine(secs, nanos, stream, data);
      && ReadLog(file').Some?
      && Pieces(Project(ReadLog(file').value, stream)) == Pieces(Project(ReadLog(file).value, stream)) + [data]
  {
    var rs, r := ReadLog(file).value, RecordOf(StampAt(secs, nanos), stream, data);
    LoggedPieceReadsBack(file, secs, nanos, stream, data);
    ProjectAppend(rs, r, stream);
    PiecesAppend(Project(rs, stream), r);
  }

  /** The other stream's records stay as they are. */
  lemma {:induction false} LogLeavesOther(file: seq<byte>, secs: nat, nanos: nat, stream: seq<byte>, data: seq<byte>, other: seq<byte>)
    requires ReadLog(file).Some? && secs < U64 && Piece(data) && OneWord(stream) && other != stream
    ensures var file' := file + LogLine(secs, nanos, stream, data);
      ReadLog(file').Some? && Project(ReadLog(file').value, other) == Project(ReadLog(file).value, other)
  {
    LoggedPieceReadsBack(file, secs, nanos, stream, data);
    ProjectAppend(ReadLog(file).value, RecordOf(StampAt(secs, nanos), stream, data), other);
  }

  lemma {:induction false} EmitKeepsAccount(file: seq<byte>, secs: nat, nanos: nat, stream: seq<byte>, t: Thread, total: seq<byte>)
    requires Accounted(file, stream, t, total) && HasLine(t.pending) && secs < U64 && OneWord(stream)
    ensures var k := FirstNewline(t.pending);
      Accounted(file + LogLine(secs, nanos, stream, t.pending[..k + 1]), stream, t.(pending := t.pending[k + 1..]), total)
  {
    var k := FirstNewline(t.pending);
    var line := t.pending[..k + 1];
    FirstLineIsPiece(t.pending);
    LogKeepsReadable(file, secs, nanos, stream, line);
    LineMoves(Pieces(Project(ReadLog(file).value, stream)), t.pending, Flatten(t.todo));
  }

  lemma FirstLineIsPiece(pending: seq<byte>)
    requires HasLine(pending)
    ensures Piece(pending[..FirstNewline(pending) + 1])
  {
    var k := FirstNewline(pending);
    assert pending[..k + 1][..k] == pending[..k];
  }

  lemma {:induction false} FinishKeepsAccount(file: seq<byte>, secs: nat, nanos: nat, stream: seq<byte>, t: Thread, total: seq<byte>)
    requires Accounted(file, stream, t, total) && !HasLine(t.pending) && t.todo == [] && secs < U64 && OneWord(stream)
    ensures Accounted(if t.pending == [] then file else file + LogLine(secs, nanos, stream, t.pending),
                      stream, Thread([], [], true), total)
  {
    assert t.pending + Flatten(t.todo) == t.pending;
    assert [] + Flatten<byte>([]) == [];
    if t.pending != [] {
      assert NEWLINE !in t.pending by { assert t.pending[..|t.pending|] == t.pending; }
      LogKeepsReadable(file, secs, nanos, stream, t.pending);
    }
  }

  /** Whether one step of either thread keeps both accounts. */
  predicate BothAccounted(s: Tees, out: seq<byte>, err: seq<byte>) {
    Accounted(s.file, STDOUT, s.out, out) && Accounted(s.file, STDERR, s.err, err)
  }

  lemma {:induction false} OwnAccount(s: Tees, step: Step, total: seq<byte>)
    requires Enabled(s, step) && Accounted(s.file, Name(step.who), Of(s, step.who), total)
    ensures var s' := Apply(s, step); Accounted(s'.file, Name(step.who), Of(s', step.who), total)
  {
    StreamNamesAreWords();
    var t, name := Of(s, step.who), Name(step.who);
    match step
    case Read(_) => ReadKeepsAccount(s.file, name, t, total);
    case Emit(_, secs, nanos) => EmitKeepsAccount(s.file, secs, nanos, name, t, total);
    case Finish(_, secs, nanos) => FinishKeepsAccount(s.file, secs, nanos, name, t, total);
  }

  lemma {:induction false} OtherAccount(s: Tees, step: Step, who: Stream, total: seq<byte>)
    requires Enabled(s, step) && who != step.who && Accounted(s.file, Name(who), Of(s, who), total)
    ensures var s' := Apply(s, step); Accounted(s'.file, Name(who), Of(s', who), total)
  {
    StreamNamesAreWords();
    var t, name, other := Of(s, step.who), Name(step.who), Name(who);
    match step
    case Read(_) =>
    case Emit(_, secs, nanos) =>
      var k := FirstNewline(t.pending);
      FirstLineIsPiece(t.pending);
      LogLeavesOther(s.file, secs, nanos, name, t.pending[..k + 1], other);
    case Finish(_, secs, nanos) =>
      if t.pending != [] {
        assert NEWLINE !in t.pending by { assert t.pending[..|t.pending|] == t.pending; }
        LogLeavesOther(s.file, secs, nanos, name, t.pending, other);
      }
  }

  lemma {:induction false} AccountedAlongRun(ss: seq<Tees>, steps: seq<Step>, out: seq<seq<byte>>, err: seq<seq<byte>>, i: nat)
    requires IsRun(ss, steps, out, err) && i < |ss|
    ensures BothAccounted(ss[i], Flatten(out), Flatten(err))
    ensures ss[i].out.done ==> ss[i].out == Thread([], [], true)
    ensures ss[i].err.done ==> ss[i].err == Thread([], [], true)
  {
    if i == 0 {
      assert [] + Flatten(out) == Flatten(out) && [] + Flatten(err) == Flatten(err);
      assert Pieces([]) == [];
    } else {
      AccountedAlongRun(ss, steps, out, err, i - 1);
      var s, step := ss[i - 1], steps[i - 1];
      assert Takes(s, step, ss[i]);
      if step.who == Out {
        OwnAccount(s, step, Flatten(out));
        OtherAccount(s, step, Err, Flatten(err));
      } else {
        OwnAccount(s, step, Flatten(err));
        OtherAccount(s, step, Out, Flatten(out));
      }
    }
  }

  // ---------------------------------------------------------------------
  // The log is lossless
  // ---------------------------------------------------------------------

  /** At any moment, so also after a kill, the file reads back, and the pieces
      of each stream are the first lines of that stream's output. */
  lemma {:induction false} LogIsAlwaysAPrefix(ss: seq<Tees>, steps: seq<Step>, out: seq<seq<byte>>, err: seq<seq<byte>>, i: nat)
    requires IsRun(ss, steps, out, err) && i < |ss|
    ensures ReadLog(ss[i].file).Some?
    ensures Pieces(Project(ReadLog(ss[i].file).value, STDOUT)) <= Framed(Flatten(out))
    ensures Pieces(Project(ReadLog(ss[i].file).value, STDERR)) <= Framed(Flatten(err))
  {
    AccountedAlongRun(ss, steps, out, err, i);
  }

  /** Once both threads are done, each stream reads back byte for byte, line by
      line, whatever the chunks and whatever the interleaving. */
  lemma {:induction false} LogIsLossless(ss: seq<Tees>, steps: seq<Step>, out: seq<seq<byte>>, err: seq<seq<byte>>, i: nat)
    requires IsRun(ss, steps, out, err) && i < |ss| && ss[i].out.done && ss[i].err.done
    ensures ReadLog(ss[i].file).Some?
    ensures var rs := ReadLog(ss[i].file).value;
      && Pieces(Project(rs, STDOUT)) == Framed(Flatten(out))
      && Pieces(Project(rs, STDERR)) == Framed(Flatten(err))
      && Flatten(Pieces(Project(rs, STDOUT))) == Flatten(out)
      && Flatten(Pieces(Project(rs, STDERR))) == Flatten(err)
  {
    AccountedAlongRun(ss, steps, out, err, i);
    assert [] + Flatten<byte>([]) == [];
    FramedKeepsBytes(Flatten(out));
    FramedKeepsBytes(Flatten(err));
  }

  predicate Clean(rs: seq<Record>) { forall r <- rs :: NEWLINE !in r.text }

  lemma {:induction false} SplitWordIsPart(s: seq<byte>)
    ensures SplitWord(s).Some? ==> forall b <- SplitWord(s).value.1 :: b in s
  {
    if s != [] && s[0] != SPACE { SplitWordIsPart(s[1..]); }
  }

  lemma {:induction false} RecordTextIsPart(line: seq<byte>)
    requires NEWLINE !in line && ReadRecord(line).Some?
    ensures NEWLINE !in ReadRecord(line).value.text
  {
    SplitWordIsPart(line);
    var rest := SplitWord(line).value.1;
    SplitWordIsPart(rest);
    SplitWordIsPart(SplitWord(rest).value.1);
  }

  lemma {:induction false} ReadLogIsClean(file: seq<byte>)
    requires ReadLog(file).Some?
    ensures Clean(ReadLog(file).value)
    decreases |file|
  {
    if file != [] {
      var k := FirstNewline(file);
      RecordTextIsPart(file[..k]);
      ReadLogIsClean(file[k + 1..]);
    }
  }

  lemma {:induction false} ProjectIsClean(rs: seq<Record>, stream: seq<byte>)
    requires Clean(rs)
    ensures Clean(Project(rs, stream))
  {
    if rs != [] { ProjectIsClean(rs[..|rs| - 1], stream); }
  }

  /** A record is determined by the bytes it stands for, its stamp aside. */
  lemma {:induction false} UndoneDecides(a: Record, b: Record)
    requires NEWLINE !in a.text && NEWLINE !in b.text && Undone(a) == Undone(b)
    ensures a.full == b.full && a.text == b.text
  {
    assert a.full <==> NEWLINE in Undone(a);
    assert b.full <==> NEWLINE in Undone(b);
    if a.full {
      assert a.text == Undone(a)[..|Undone(a)| - 1] && b.text == Undone(b)[..|Undone(b)| - 1];
    }
  }

  predicate SameRecords(a: seq<Record>, b: seq<Record>) {
    |a| == |b| && forall k :: 0 <= k < |a| ==> a[k].full == b[k].full && a[k].text == b[k].text
  }

  lemma {:induction false} SamePiecesSameRecords(a: seq<Record>, b: seq<Record>)
    requires Clean(a) && Clean(b) && Pieces(a) == Pieces(b)
    ensures SameRecords(a, b)
  {
    forall k | 0 <= k < |a|
      ensures a[k].full == b[k].full && a[k].text == b[k].text
    {
      assert Undone(a[k]) == Pieces(a)[k] == Pieces(b)[k];
      assert a[k] in a && b[k] in b;
      UndoneDecides(a[k], b[k]);
    }
  }

  /** Two finished logs of the same stdout bytes hold the same stdout records,
      timestamps aside, however either run was chunked or interleaved. */
  lemma {:induction false} ChunksDoNotMatter(
      ss: seq<Tees>, steps: seq<Step>, out: seq<seq<byte>>, err: seq<seq<byte>>,
      ss': seq<Tees>, steps': seq<Step>, out': seq<seq<byte>>, err': seq<seq<byte>>, i: nat, j: nat)
    requires IsRun(ss, steps, out, err) && i < |ss| && ss[i].out.done && ss[i].err.done
    requires IsRun(ss', steps', out', err') && j < |ss'| && ss'[j].out.done && ss'[j].err.done
    requires Flatten(out) == Flatten(out') && Flatten(err) == Flatten(err')
    ensures ReadLog(ss[i].file).Some? && ReadLog(ss'[j].file).Some?
    ensures forall name <- [STDOUT, STDERR] ::
      SameRecords(Project(ReadLog(ss[i].file).value, name), Project(ReadLog(ss'[j].file).value, name))
  {
    LogIsLossless(ss, steps, out, err, i);
    LogIsLossless(ss', steps', out', err', j);
    var rs, rs' := ReadLog(ss[i].file).value, ReadLog(ss'[j].file).value;
    ReadLogIsClean(ss[i].file);
    ReadLogIsClean(ss'[j].file);
    forall name | name in [STDOUT, STDERR]
      ensures SameRecords(Project(rs, name), Project(rs', name))
    {
      ProjectIsClean(rs, name);
      ProjectIsClean(rs', name);
      SamePiecesSameRecords(Project(rs, name), Project(rs', name));
    }
  }
}

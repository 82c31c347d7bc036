/** How the streams of a forwarding client are told apart and paired, by the
    bytes of their headers, and what the forwarder answers. */
module PortForwardPairs {

  import opened Options
  import opened Bytes
  import opened Frames
  import opened Messages
  import opened PortForwarding
  import opened PortForwardSafety
  import opened Stamp
  import H = HeaderBlock
  import R = ReadLoops

  // ---------------------------------------------------------------------
  // Ports in decimal
  // ---------------------------------------------------------------------

  predicate Decimal(d: seq<byte>) { d != [] && forall i :: 0 <= i < |d| ==> 48 <= d[i] <= 57 }

  /** A port number of 16 bits in decimal, with or without a plus sign. */
  predicate ReadsAs(v: seq<byte>, n: nat) {
    && n <= 65535
    && var d := if v != [] && v[0] == 43 then v[1..] else v;
      Decimal(d) && DecimalValue(d) == n
  }

  lemma {:induction false} MoreDigitsMore(p: seq<byte>, s: seq<byte>)
    requires Decimal(p) && (s == [] || Decimal(s))
    ensures 0 <= DecimalValue(p) <= DecimalValue(p + s)
    decreases |p| + |s|
  {
    if s == [] {
      assert p + s == p;
      if |p| > 1 { MoreDigitsMore(p[..|p| - 1], []); }
    } else {
      var front, b := s[..|s| - 1], s[|s| - 1];
      MoreDigitsMore(p, front);
      assert p + s == (p + front) + [b];
      DecimalStep(p + front, b);
    }
  }

  predicate Figures(s: seq<byte>) { forall i :: 0 <= i < |s| ==> 48 <= s[i] <= 57 }

  lemma FiguresStep(s: seq<byte>)
    requires s != []
    ensures Figures(s) <==> 48 <= s[0] <= 57 && Figures(s[1..])
  {
    assert forall i :: 0 < i < |s| ==> s[i] == s[1..][i - 1];
  }

  /** What reading the rest gives, after digits of value acc were read. */
  predicate ReadsRest(p: seq<byte>, s: seq<byte>, r: Option<nat>) {
    if Figures(s) && DecimalValue(p + s) <= 65535 then r.Some? && r.value == DecimalValue(p + s) else r.None?
  }

  lemma {:induction false} TooManyDigits(p: seq<byte>, s: seq<byte>)
    requires Decimal(p) && DecimalValue(p) > 65535
    ensures ReadsRest(p, s, None)
  {
    if Figures(s) { MoreDigitsMore(p, s); }
  }

  /** The accumulator holds the value of the digits it was fed. */
  lemma {:induction false} DigitsAreRead(p: seq<byte>, s: seq<byte>, acc: nat)
    requires Figures(p) && acc == DecimalValue(p) && acc <= 65535
    ensures ReadsRest(p, s, DigitsValue(s, acc))
    decreases |s|
  {
    if s == [] {
      assert p + s == p;
    } else {
      FiguresStep(s);
      if 48 <= s[0] <= 57 { NextDigitIsRead(p, s, acc); }
    }
  }

  lemma {:induction false} NextDigitIsRead(p: seq<byte>, s: seq<byte>, acc: nat)
    requires Figures(p) && acc == DecimalValue(p) && acc <= 65535 && s != [] && 48 <= s[0] <= 57
    ensures ReadsRest(p, s, DigitsValue(s, acc))
    decreases |s|, 0
  {
    var q := p + [s[0]];
    var next: int := 10 * acc + (s[0] as int - 48);
    DecimalStep(p, s[0]);
    if next <= 65535 { DigitsAreRead(q, s[1..], next); } else { TooManyDigits(q, s[1..]); }
    RestMoves(p, s, DigitsValue(s, acc));
  }

  lemma RestMoves(p: seq<byte>, s: seq<byte>, r: Option<nat>)
    requires s != [] && 48 <= s[0] <= 57 && ReadsRest(p + [s[0]], s[1..], r)
    ensures ReadsRest(p, s, r)
  {
    FiguresStep(s);
    assert p + s == (p + [s[0]]) + s[1..];
  }

  /** `parse::<u16>()` succeeds for exactly the decimal texts of such numbers. */
  lemma {:induction false} ParsePortExactly(v: seq<byte>, n: nat)
    ensures ParsePort(v) == Some(n) <==> ReadsAs(v, n)
  {
    var d := if v != [] && v[0] == 43 then v[1..] else v;
    DigitsAreRead([], d, 0);
    assert [] + d == d;
    assert Decimal(d) <==> d != [] && Figures(d);
  }

  // ---------------------------------------------------------------------
  // What the headers say
  // ---------------------------------------------------------------------

  /** The first "requestID" header, in any case, has this value. */
  predicate SaysRequest(headers: seq<H.Header>, v: Option<seq<byte>>) {
    H.FirstValue(headers, [114, 101, 113, 117, 101, 115, 116, 105, 100], [82, 69, 81, 85, 69, 83, 84, 73, 68], v)
  }

  /** The first "port" header, in any case, gives this number; zero when there
      is none or it is no port number. */
  ghost predicate SaysPort(headers: seq<H.Header>, n: nat) {
    || (PortValue(headers, None) && n == 0)
    || (exists v :: PortValue(headers, Some(v)) && (ReadsAs(v, n) || (n == 0 && forall m: nat :: !ReadsAs(v, m))))
  }

  predicate PortValue(headers: seq<H.Header>, v: Option<seq<byte>>) {
    H.FirstValue(headers, [112, 111, 114, 116], [80, 79, 82, 84], v)
  }

  /** The first "streamType" header, in any case, is "error". */
  predicate IsErrorStream(headers: seq<H.Header>) { R.NamesType(headers, Some([101, 114, 114, 111, 114])) }

  lemma {:induction false} PortIsSaid(headers: seq<H.Header>, n: nat)
    requires SaysPort(headers, n)
    ensures PortOf(headers) == n
  {
    assert H.Spellings(PORT, [112, 111, 114, 116], [80, 79, 82, 84]);
    if PortValue(headers, None) && n == 0 {
      H.GetIsFirstValue(headers, PORT, [112, 111, 114, 116], [80, 79, 82, 84], None);
    } else {
      var v :| PortValue(headers, Some(v)) && (ReadsAs(v, n) || (n == 0 && forall m: nat :: !ReadsAs(v, m)));
      H.GetIsFirstValue(headers, PORT, [112, 111, 114, 116], [80, 79, 82, 84], Some(v));
      ParsePortExactly(v, n);
      if !ReadsAs(v, n) && ParsePort(v).Some? { ParsePortExactly(v, ParsePort(v).value); }
    }
  }

  /** Everything that is not an error stream is a data stream. */
  lemma {:induction false} DataUnlessError(headers: seq<H.Header>)
    ensures IsData(headers) <==> !IsErrorStream(headers)
  {
    R.TypeIsSpelled();
    var v := H.ValueOfFirst(headers, [115, 116, 114, 101, 97, 109, 116, 121, 112, 101], [83, 84, 82, 69, 65, 77, 84, 89, 80, 69]);
    H.GetIsFirstValue(headers, R.STREAM_TYPE, [115, 116, 114, 101, 97, 109, 116, 121, 112, 101], [83, 84, 82, 69, 65, 77, 84, 89, 80, 69], v);
    if IsErrorStream(headers) {
      H.GetIsFirstValue(headers, R.STREAM_TYPE, [115, 116, 114, 101, 97, 109, 116, 121, 112, 101], [83, 84, 82, 69, 65, 77, 84, 89, 80, 69],
                        Some([101, 114, 114, 111, 114]));
    }
  }

  /** What a stream is paired by: its request, or its port when it names none. */
  datatype Label = ByRequest(request: seq<byte>) | ByPort(port: nat)

  ghost predicate Labelled(headers: seq<H.Header>, l: Label) {
    match l
    case ByRequest(v) => SaysRequest(headers, Some(v))
    case ByPort(n) => SaysRequest(headers, None) && SaysPort(headers, n)
  }

  /** Every header list has a label. */
  lemma {:induction false} HasLabel(headers: seq<H.Header>) returns (l: Label)
    ensures Labelled(headers, l)
  {
    var request := H.ValueOfFirst(headers, [114, 101, 113, 117, 101, 115, 116, 105, 100], [82, 69, 81, 85, 69, 83, 84, 73, 68]);
    if request.Some? {
      l := ByRequest(request.value);
    } else {
      var v := H.ValueOfFirst(headers, [112, 111, 114, 116], [80, 79, 82, 84]);
      l := ByPort(PortOf(headers));
      assert H.Spellings(PORT, [112, 111, 114, 116], [80, 79, 82, 84]);
      H.GetIsFirstValue(headers, PORT, [112, 111, 114, 116], [80, 79, 82, 84], v);
      if v.Some? {
        assert PortValue(headers, v);
        if ParsePort(v.value).Some? {
          ParsePortExactly(v.value, ParsePort(v.value).value);
        } else {
          forall m: nat ensures !ReadsAs(v.value, m) { ParsePortExactly(v.value, m); }
        }
      }
    }
  }

  /** A stream without headers, such as one whose headers cannot be read, is a
      data stream for port zero. */
  lemma {:induction false} NoHeadersNoPort()
    ensures !IsErrorStream([]) && Labelled([], ByPort(0))
  {
  }

  // ---------------------------------------------------------------------
  // When two streams share a pair
  // ---------------------------------------------------------------------

  /** The request is the text "port-" and this number in decimal. */
  predicate Imitates(request: seq<byte>, port: nat) {
    && |request| > 5 && request[..5] == [112, 111, 114, 116, 45]
    && Decimal(request[5..]) && DecimalValue(request[5..]) == port
    && (request[5] == 48 ==> |request| == 6)
  }

  /** Equal requests, or equal ports of streams without a request; or a request
      that imitates such a port. */
  predicate Together(a: Label, b: Label) {
    || a == b
    || (a.ByRequest? && b.ByPort? && Imitates(a.request, b.port))
    || (b.ByRequest? && a.ByPort? && Imitates(b.request, a.port))
  }

  lemma {:induction false} DigitsAreDecimal(n: nat)
    ensures Decimal(Digits(n)) && DecimalValue(Digits(n)) == n && (Digits(n)[0] == 48 ==> |Digits(n)| == 1)
  {
    DigitsHaveValue(n);
    if n >= 10 {
      DigitsAreDecimal(n / 10);
      DigitsHaveValue(n / 10);
    }
  }

  /** There is one way to write a number without leading zeros. */
  lemma {:induction false} DigitsAreUnique(d: seq<byte>)
    requires Decimal(d) && (d[0] == 48 ==> |d| == 1)
    ensures DecimalValue(d) >= 0 && Digits(DecimalValue(d)) == d
  {
    var front, b := d[..|d| - 1], d[|d| - 1];
    assert d == front + [b];
    if front == [] {
      DecimalStep([], b);
      assert d == [b];
    } else {
      DigitsAreUnique(front);
      DecimalStep(front, b);
      var n := DecimalValue(front);
      assert Digits(0)[0] == 48 && n > 0;
      assert (10 * n + (b as int - 48)) / 10 == n && (10 * n + (b as int - 48)) % 10 == b as int - 48;
    }
  }

  function KeyOfLabel(l: Label): Key {
    match l
    case ByRequest(v) => v
    case ByPort(n) => [112, 111, 114, 116, 45] + Digits(n)
  }

  lemma {:induction false} KeyIsLabel(headers: seq<H.Header>, l: Label)
    requires Labelled(headers, l)
    ensures KeyOf(headers) == KeyOfLabel(l)
  {
    var small, capital: seq<byte> := [114, 101, 113, 117, 101, 115, 116, 105, 100], [82, 69, 81, 85, 69, 83, 84, 73, 68];
    assert H.Spellings(REQUEST_ID, small, capital);
    match l
    case ByRequest(v) => H.GetIsFirstValue(headers, REQUEST_ID, small, capital, Some(v));
    case ByPort(n) =>
      H.GetIsFirstValue(headers, REQUEST_ID, small, capital, None);
      PortIsSaid(headers, n);
  }

  lemma {:induction false} ImitationsExactly(request: seq<byte>, port: nat)
    ensures request == KeyOfLabel(ByPort(port)) <==> Imitates(request, port)
  {
    DigitsAreDecimal(port);
    var key := KeyOfLabel(ByPort(port));
    assert key[..5] == [112, 111, 114, 116, 45] && key[5..] == Digits(port);
    if Imitates(request, port) {
      DigitsAreUnique(request[5..]);
      assert request == request[..5] + request[5..];
    }
  }

  lemma {:induction false} PortsDiffer(a: nat, b: nat)
    requires KeyOfLabel(ByPort(a)) == KeyOfLabel(ByPort(b))
    ensures a == b
  {
    DigitsAreDecimal(a);
    DigitsAreDecimal(b);
    assert KeyOfLabel(ByPort(a))[5..] == Digits(a) && KeyOfLabel(ByPort(b))[5..] == Digits(b);
  }

  /** Two streams belong to one pair if and only if they name the same request,
      or name none and the same port; or one names a request that imitates the
      port of the other. */
  lemma {:induction false} SamePairExactly(a: seq<H.Header>, la: Label, b: seq<H.Header>, lb: Label)
    requires Labelled(a, la) && Labelled(b, lb)
    ensures KeyOf(a) == KeyOf(b) <==> Together(la, lb)
  {
    KeyIsLabel(a, la);
    KeyIsLabel(b, lb);
    match (la, lb)
    case (ByRequest(v), ByPort(n)) => ImitationsExactly(v, n);
    case (ByPort(n), ByRequest(v)) => ImitationsExactly(v, n);
    case (ByPort(m), ByPort(n)) => if KeyOf(a) == KeyOf(b) { PortsDiffer(m, n); }
    case _ =>
  }

  // ---------------------------------------------------------------------
  // Different requests stay apart
  // ---------------------------------------------------------------------

  predicate OpensData(m: Message) { m.Open? && !IsErrorStream(m.headers) }

  predicate OpensError(m: Message) { m.Open? && IsErrorStream(m.headers) }

  /** The labels of the streams that are opened. */
  ghost predicate AllLabelled(ms: seq<Message>, labels: seq<Label>) {
    |labels| == |ms| && forall i :: 0 <= i < |ms| && ms[i].Open? ==> Labelled(ms[i].headers, labels[i])
  }

  /** Data streams with ids of their own and, whatever their ports, different
      requests: each connection gets exactly its own stream's bytes, up to its
      FIN. The same holds of streams without a request and different ports. */
  lemma {:induction false} RequestsStayApart(ms: seq<Message>, dials: seq<bool>, labels: seq<Label>, i: nat)
    requires |ms| <= |dials| && AllLabelled(ms, labels)
    requires forall a, b :: 0 <= a < b < |ms| && OpensData(ms[a]) && OpensData(ms[b]) ==>
      ms[a].id != ms[b].id && !Together(labels[a], labels[b])
    requires i < |Heeded(ms)| && OpensData(ms[i]) && dials[i]
    ensures Safe(Skeleton(Turns(ms, dials)))
    ensures GotItsBytes(After(Turns(ms, dials)), |After(Turns(ms[..i], dials)).conns|,
                        R.SentOn(true, Heeded(ms)[i + 1..], ms[i].id))
  {
    var ts := Turns(ms, dials);
    forall a, b | 0 <= a < b < |ts| && DataOpen(ts[a].m) && DataOpen(ts[b].m)
      ensures ts[a].m.id != ts[b].m.id && KeyOf(ts[a].m.headers) != KeyOf(ts[b].m.headers)
    {
      DataUnlessError(ms[a].headers);
      DataUnlessError(ms[b].headers);
      SamePairExactly(ms[a].headers, labels[a], ms[b].headers, labels[b]);
    }
    OneDataStreamPerKeyIsSafe(ts);
    DataUnlessError(ms[i].headers);
    ConnsAreIsolated(ms, dials, i);
  }

  // ---------------------------------------------------------------------
  // The pairs
  // ---------------------------------------------------------------------

  /** The last data stream, or error stream, opened under a key. */
  function LastOpen(ms: seq<Message>, key: Key, data: bool): Option<u32> {
    if ms == [] then None
    else
      var m := ms[|ms| - 1];
      if m.Open? && KeyOf(m.headers) == key && IsData(m.headers) == data then Some(m.id)
      else LastOpen(ms[..|ms| - 1], key, data)
  }

  /** The first port that is not zero among the streams opened under a key. */
  function FirstPort(ms: seq<Message>, key: Key): nat {
    if ms == [] then 0
    else
      var p, m := FirstPort(ms[..|ms| - 1], key), ms[|ms| - 1];
      if p == 0 && m.Open? && KeyOf(m.headers) == key then PortOf(m.headers) else p
  }

  predicate PairIs(s: Forwarding, ms: seq<Message>, key: Key) {
    if key in s.pairs then
      && s.pairs[key].dataStream == LastOpen(ms, key, true)
      && s.pairs[key].errorStream == LastOpen(ms, key, false)
      && s.pairs[key].port == FirstPort(ms, key)
    else LastOpen(ms, key, true) == LastOpen(ms, key, false) == None && FirstPort(ms, key) == 0
  }

  lemma {:induction false} StepKeepsPair(s: Forwarding, ms: seq<Message>, m: Message, dialed: bool, key: Key)
    requires PairIs(s, ms, key)
    ensures PairIs(Step(s, m, dialed), ms + [m], key)
  {
    assert (ms + [m])[..|ms|] == ms;
  }

  /** In every conversation a pair has the last data stream and the last error
      stream opened under its key, and the first port they gave. */
  lemma {:induction false} PairsAreKnown(ms: seq<Message>, dials: seq<bool>, key: Key)
    requires |ms| <= |dials| && R.Stays(ms)
    ensures PairIs(After(Turns(ms, dials)), ms, key)
  {
    if ms != [] {
      var front, m := ms[..|ms| - 1], ms[|ms| - 1];
      PairsAreKnown(front, dials, key);
      PrefixTurns(ms, dials, |front|);
      StaysOpen(front, dials);
      StepKeepsPair(After(Turns(front, dials)), front, m, dials[|front|], key);
      assert ms == front + [m];
    }
  }

  lemma {:induction false} LastOpenIs(ms: seq<Message>, i: nat, key: Key, data: bool)
    requires i < |ms| && ms[i].Open? && KeyOf(ms[i].headers) == key && IsData(ms[i].headers) == data
    requires forall k :: i < k < |ms| && ms[k].Open? && IsData(ms[k].headers) == data ==> KeyOf(ms[k].headers) != key
    ensures LastOpen(ms, key, data) == Some(ms[i].id)
  {
    if i < |ms| - 1 { LastOpenIs(ms[..|ms| - 1], i, key, data); }
  }

  /** A data stream and an error stream of one request, or of one port, share a
      pair; those of different requests do not. */
  lemma {:induction false} StreamsArePaired(ms: seq<Message>, dials: seq<bool>, labels: seq<Label>, i: nat, j: nat)
    returns (data: Key, error: Key)
    requires |ms| <= |dials| && AllLabelled(ms, labels) && i < |Heeded(ms)| && j < |Heeded(ms)|
    requires OpensData(ms[i]) && forall k :: i < k < |Heeded(ms)| && OpensData(ms[k]) ==> !Together(labels[k], labels[i])
    requires OpensError(ms[j]) && forall k :: j < k < |Heeded(ms)| && OpensError(ms[k]) ==> !Together(labels[k], labels[j])
    ensures var pairs := After(Turns(ms, dials)).pairs;
      && data in pairs && pairs[data].dataStream == Some(ms[i].id)
      && error in pairs && pairs[error].errorStream == Some(ms[j].id)
      && (data == error <==> Together(labels[i], labels[j]))
  {
    var h := Heeded(ms);
    assert h == ms[..|h|];
    data, error := KeyOf(ms[i].headers), KeyOf(ms[j].headers);
    forall k: nat | k < |h| && h[k].Open?
      ensures IsData(h[k].headers) <==> OpensData(ms[k])
      ensures KeyOf(h[k].headers) == data <==> Together(labels[k], labels[i])
      ensures KeyOf(h[k].headers) == error <==> Together(labels[k], labels[j])
    {
      DataUnlessError(ms[k].headers);
      SamePairExactly(ms[k].headers, labels[k], ms[i].headers, labels[i]);
      SamePairExactly(ms[k].headers, labels[k], ms[j].headers, labels[j]);
    }
    LastOpenIs(h, i, data, true);
    LastOpenIs(h, j, error, false);
    AfterHeeded(ms, dials);
    PairsAreKnown(h, dials, data);
    PairsAreKnown(h, dials, error);
  }

  // ---------------------------------------------------------------------
  // Which port is dialed
  // ---------------------------------------------------------------------

  lemma StepKeepsPorts(s: Forwarding, m: Message, dialed: bool, c: nat)
    requires c < |s.conns|
    ensures c < |Step(s, m, dialed).conns| && Step(s, m, dialed).conns[c].port == s.conns[c].port
  {
  }

  /** Connection c goes to this port. */
  predicate GoesTo(s: Forwarding, c: nat, port: nat) { c < |s.conns| && s.conns[c].port == port }

  lemma {:induction false} PortSoFar(ms: seq<Message>, dials: seq<bool>, i: nat)
    requires |ms| <= |dials| && R.Stays(ms) && i < |ms| && OpensData(ms[i]) && dials[i]
    ensures GoesTo(After(Turns(ms, dials)), |After(Turns(ms[..i], dials)).conns|, FirstPort(ms[..i + 1], KeyOf(ms[i].headers)))
    decreases |ms|
  {
    var front, m := ms[..|ms| - 1], ms[|ms| - 1];
    PrefixTurns(ms, dials, |front|);
    StaysOpen(front, dials);
    if i < |front| {
      PortSoFar(front, dials, i);
      assert front[..i] == ms[..i] && front[..i + 1] == ms[..i + 1];
      StepKeepsPorts(After(Turns(front, dials)), m, dials[|front|], |After(Turns(ms[..i], dials)).conns|);
    } else {
      assert ms[..i] == front && ms[..i + 1] == ms && ms == front + [m];
      PairsAreKnown(front, dials, KeyOf(m.headers));
      DataUnlessError(m.headers);
      NewConnHasPort(After(Turns(front, dials)), front, m);
    }
  }

  /** The connection of a data stream goes to the first port that its pair was
      given, be it by its own headers or by those of an earlier stream. */
  lemma {:induction false} DialsItsPort(ms: seq<Message>, dials: seq<bool>, i: nat)
    requires |ms| <= |dials| && i < |Heeded(ms)| && OpensData(ms[i]) && dials[i]
    ensures GoesTo(After(Turns(ms, dials)), |After(Turns(ms[..i], dials)).conns|, FirstPort(ms[..i + 1], KeyOf(ms[i].headers)))
  {
    var h := Heeded(ms);
    assert h[..i] == ms[..i] && h[..i + 1] == ms[..i + 1];
    AfterHeeded(ms, dials);
    PortSoFar(h, dials, i);
  }

  lemma {:induction false} NewConnHasPort(s: Forwarding, ms: seq<Message>, m: Message)
    requires m.Open? && IsData(m.headers) && PairIs(s, ms, KeyOf(m.headers))
    ensures |Step(s, m, true).conns| == |s.conns| + 1
    ensures Step(s, m, true).conns[|s.conns|].port == FirstPort(ms + [m], KeyOf(m.headers))
  {
    assert (ms + [m])[..|ms|] == ms;
  }

  // ---------------------------------------------------------------------
  // What the forwarder answers
  // ---------------------------------------------------------------------

  /** An acknowledgement of each stream and each ping sent back. A data stream
      that cannot be dialed is reset with status 3; if its pair has an error
      stream, that one first gets the text "dial failed" and is reset after. */
  function Told(ms: seq<Message>, dials: seq<bool>): seq<Answer>
    requires |ms| <= |dials|
  {
    if ms == [] then []
    else
      var front, m := ms[..|ms| - 1], ms[|ms| - 1];
      Told(front, dials) + match m
        case Open(id, headers, _, _, _) =>
          [Acknowledged(id)] +
          if IsErrorStream(headers) || dials[|front|] then []
          else (match LastOpen(front, KeyOf(headers), false)
            case None => [Reset(id, 3)]
            case Some(eid) =>
              [Failure(eid, [100, 105, 97, 108, 32, 102, 97, 105, 108, 101, 100]), Reset(id, 3), Reset(eid, 3)])
        case Probe(id) => [Ponged(id)]
        case _ => []
  }

  lemma {:induction false} ToldSoFar(ms: seq<Message>, dials: seq<bool>)
    requires |ms| <= |dials| && R.Stays(ms)
    ensures After(Turns(ms, dials)).answers == Told(ms, dials)
  {
    if ms != [] {
      var front, m := ms[..|ms| - 1], ms[|ms| - 1];
      ToldSoFar(front, dials);
      PrefixTurns(ms, dials, |front|);
      StaysOpen(front, dials);
      assert m in ms;
      if m.Open? {
        PairsAreKnown(front, dials, KeyOf(m.headers));
        DataUnlessError(m.headers);
        OpeningIsTold(After(Turns(front, dials)), m, dials[|front|]);
      }
    }
  }

  lemma {:induction false} OpeningIsTold(s: Forwarding, m: Message, dialed: bool)
    requires m.Open?
    ensures var key := KeyOf(m.headers);
      var error := if key in s.pairs then s.pairs[key].errorStream else None;
      Step(s, m, dialed).answers == s.answers + ([Acknowledged(m.id)] +
        if !IsData(m.headers) || dialed then []
        else (match error
          case None => [Reset(m.id, 3)]
          case Some(eid) => [Failure(eid, [100, 105, 97, 108, 32, 102, 97, 105, 108, 101, 100]), Reset(m.id, 3), Reset(eid, 3)]))
  {
  }

  /** The forwarder answers every stream, every failed dial and every ping, in
      the client's order, until the message that ends it. */
  lemma {:induction false} ClientIsAnswered(ms: seq<Message>, dials: seq<bool>)
    requires |ms| <= |dials|
    ensures After(Turns(ms, dials)).answers == Told(Heeded(ms), dials)
  {
    AfterHeeded(ms, dials);
    ToldSoFar(Heeded(ms), dials);
  }
}

/** SPDY/3.1 name/value header blocks before compression (SPDY draft 3,
    section 2.6.10). Strings are the bytes of valid UTF-8. */
module HeaderBlock {

  import opened Options
  import opened Bytes

  // ---------------------------------------------------------------------
  // UTF-8 (RFC 3629, section 4)
  // ---------------------------------------------------------------------

  predicate Tail(b: byte) { 0x80 <= b <= 0xBF }

  /** The length of the character at the front, or 0 when there is none. */
  function CharLength(s: seq<byte>): (n: nat)
    ensures n <= |s|
  {
    if |s| >= 1 && s[0] <= 0x7F then 1
    else if |s| >= 2 && 0xC2 <= s[0] <= 0xDF && Tail(s[1]) then 2
    else if |s| >= 3 && Tail(s[1]) && Tail(s[2])
            && (0xE0 <= s[0] <= 0xEF) && (s[0] == 0xE0 ==> s[1] >= 0xA0) && (s[0] == 0xED ==> s[1] <= 0x9F) then 3
    else if |s| >= 4 && Tail(s[1]) && Tail(s[2]) && Tail(s[3])
            && (0xF0 <= s[0] <= 0xF4) && (s[0] == 0xF0 ==> s[1] >= 0x90) && (s[0] == 0xF4 ==> s[1] <= 0x8F) then 4
    else 0
  }

  predicate Utf8(s: seq<byte>)
    decreases |s|
  {
    s == [] || (CharLength(s) > 0 && Utf8(s[CharLength(s)..]))
  }

  predicate Ascii(s: seq<byte>) { forall i :: 0 <= i < |s| ==> s[i] <= 0x7F }

  lemma {:induction false} AsciiIsUtf8(s: seq<byte>)
    requires Ascii(s)
    ensures Utf8(s)
  {
    if s != [] { AsciiIsUtf8(s[1..]); }
  }

  type Str = s: seq<byte> | Utf8(s)

  datatype Header = Header(name: Str, value: Str)

  function AsciiHeader(name: seq<byte>, value: seq<byte>): (h: Header)
    requires Ascii(name) && Ascii(value)
    ensures h.name == name && h.value == value
  {
    AsciiIsUtf8(name);
    AsciiIsUtf8(value);
    Header(name, value)
  }

  const MAX_PAIRS: nat := 1024

  // ---------------------------------------------------------------------
  // Writing a block
  // ---------------------------------------------------------------------

  /** A length as it is written: `len as u32`. */
  function Length(n: nat): (b: seq<byte>)
    ensures |b| == 4
  {
    BE32(n % 0x1_0000_0000)
  }

  function Entry(h: Header): seq<byte> {
    Length(|h.name|) + h.name + (Length(|h.value|) + h.value)
  }

  function Entries(hs: seq<Header>): seq<byte> {
    if hs == [] then [] else Entry(hs[0]) + Entries(hs[1..])
  }

  function Block(hs: seq<Header>): seq<byte> { Length(|hs|) + Entries(hs) }

  lemma {:induction false} EntriesAppend(hs: seq<Header>, h: Header)
    ensures Entries(hs + [h]) == Entries(hs) + Entry(h)
  {
    if hs == [] {
      assert hs + [h] == [h] && [h][1..] == [];
    } else {
      assert (hs + [h])[1..] == hs[1..] + [h];
      EntriesAppend(hs[1..], h);
    }
  }

  lemma EntriesGrow(hs: seq<Header>, i: nat)
    requires i < |hs|
    ensures Entries(hs[..i + 1]) == Entries(hs[..i]) + Entry(hs[i])
  {
    EntriesAppend(hs[..i], hs[i]);
    assert hs[..i + 1] == hs[..i] + [hs[i]];
  }

  /** The body of the loop of `serialize_headers`. */
  method PushHeader(before: seq<byte>, h: Header) returns (out: seq<byte>)
    ensures out == before + Entry(h)
  {
    out := before + Length(|h.name|);
    out := out + h.name;
    out := out + Length(|h.value|);
    out := out + h.value;
  }

  method SerializeHeaders(headers: seq<Header>) returns (out: seq<byte>)
    ensures out == Block(headers)
  {
    out := Length(|headers|);
    for i := 0 to |headers|
      invariant out == Length(|headers|) + Entries(headers[..i])
    {
      var h := headers[i];
      EntriesGrow(headers, i);
      out := PushHeader(out, h);
    }
    assert headers[..|headers|] == headers;
  }

  // ---------------------------------------------------------------------
  // Reading a block
  // ---------------------------------------------------------------------

  /** A length-prefixed string at the front, and what follows it. */
  function ReadString(buf: seq<byte>): Option<(seq<byte>, seq<byte>)> {
    if |buf| < 4 then None
    else
      var n := FromBE32(buf[..4]);
      if |buf| < 4 + n then None else Some((buf[4..4 + n], buf[4 + n..]))
  }

  function ReadEntry(buf: seq<byte>): Option<(Header, seq<byte>)> {
    match ReadString(buf)
    case None => None
    case Some((name, afterName)) =>
      match ReadString(afterName)
      case None => None
      case Some((value, rest)) => if Utf8(name) && Utf8(value) then Some((Header(name, value), rest)) else None
  }

  function ReadEntries(buf: seq<byte>, count: nat): Option<seq<Header>> {
    if count == 0 then Some([])
    else match ReadEntry(buf)
      case None => None
      case Some((h, rest)) =>
        match ReadEntries(rest, count - 1)
        case None => None
        case Some(hs) => Some([h] + hs)
  }

  function ReadBlock(buf: seq<byte>): Option<seq<Header>> {
    if |buf| < 4 then None
    else
      var count := FromBE32(buf[..4]);
      if count > MAX_PAIRS then None else ReadEntries(buf[4..], count)
  }

  /** `read_u32`, advancing pos past what it read. */
  method ReadU32(buf: seq<byte>, pos: nat) returns (r: Option<nat>, next: nat)
    requires pos <= |buf|
    ensures r.Some? <==> pos + 4 <= |buf|
    ensures r.Some? ==> next == pos + 4 && r.value == FromBE32(buf[pos..next])
  {
    var end := pos + 4;
    if end > |buf| { return None, pos; }
    return Some(FromBE32(buf[pos..end])), end;
  }

  /** `read_bytes`, advancing pos past what it read. */
  method ReadBytes(buf: seq<byte>, pos: nat, len: nat) returns (r: Option<seq<byte>>, next: nat)
    requires pos <= |buf|
    ensures r.Some? <==> pos + len <= |buf|
    ensures r.Some? ==> next == pos + len && r.value == buf[pos..next]
  {
    var end := pos + len;
    if end > |buf| { return None, pos; }
    return Some(buf[pos..end]), end;
  }

  /** A name or a value: its length, then its bytes. */
  method ReadPrefixed(buf: seq<byte>, pos: nat) returns (r: Option<seq<byte>>, next: nat)
    requires pos <= |buf|
    ensures r.None? ==> ReadString(buf[pos..]).None?
    ensures r.Some? ==> pos <= next <= |buf| && ReadString(buf[pos..]) == Some((r.value, buf[next..]))
  {
    var len, at := ReadU32(buf, pos);
    if len.None? { return None, pos; }
    assert buf[pos..][..4] == buf[pos..at];
    r, next := ReadBytes(buf, at, len.value);
    if r.Some? {
      assert buf[pos..][4..4 + len.value] == buf[at..next] && buf[pos..][4 + len.value..] == buf[next..];
    }
  }

  /** One name and its value, both of which must be UTF-8. */
  method ReadPair(buf: seq<byte>, pos: nat) returns (r: Option<Header>, next: nat)
    requires pos <= |buf|
    ensures r.None? ==> ReadEntry(buf[pos..]).None?
    ensures r.Some? ==> pos <= next <= |buf| && ReadEntry(buf[pos..]) == Some((r.value, buf[next..]))
  {
    var name, afterName := ReadPrefixed(buf, pos);
    if name.None? { return None, pos; }
    var value, afterValue := ReadPrefixed(buf, afterName);
    if value.None? || !Utf8(name.value) || !Utf8(value.value) { return None, pos; }
    return Some(Header(name.value, value.value)), afterValue;
  }

  /** The loop of `deserialize_headers`, from the position after the count. */
  method ReadPairs(buf: seq<byte>, start: nat, count: nat) returns (r: Option<seq<Header>>)
    requires start <= |buf|
    ensures r == ReadEntries(buf[start..], count)
  {
    var out: seq<Header> := [];
    var pos := start;
    BeforeNothing(ReadEntries(buf[start..], count));
    for i := 0 to count
      invariant 0 <= pos <= |buf|
      invariant ReadEntries(buf[start..], count) == Before(out, ReadEntries(buf[pos..], count - i))
    {
      ReadEntriesStep(buf[pos..], count - i);
      var h, next := ReadPair(buf, pos);
      if h.None? { return None; }
      BeforeTwice(out, h.value, ReadEntries(buf[next..], count - i - 1));
      out, pos := out + [h.value], next;
    }
    assert out + [] == out;
    return Some(out);
  }

  method DeserializeHeaders(buf: seq<byte>) returns (r: Option<seq<Header>>)
    ensures r == ReadBlock(buf)
  {
    var count, pos := ReadU32(buf, 0);
    if count.None? || count.value > MAX_PAIRS { return None; }
    assert buf[0..4] == buf[..4];
    r := ReadPairs(buf, pos, count.value);
  }

  /** Pairs read so far, then what reading the rest gives. */
  function Before(hs: seq<Header>, rest: Option<seq<Header>>): Option<seq<Header>> {
    if rest.Some? then Some(hs + rest.value) else None
  }

  lemma ReadEntriesStep(buf: seq<byte>, count: nat)
    requires count > 0
    ensures ReadEntries(buf, count) ==
      match ReadEntry(buf)
      case None => None
      case Some((h, rest)) => Before([h], ReadEntries(rest, count - 1))
  {
  }

  lemma BeforeNothing(rest: Option<seq<Header>>)
    ensures Before([], rest) == rest
  {
    if rest.Some? { assert [] + rest.value == rest.value; }
  }

  lemma BeforeTwice(hs: seq<Header>, h: Header, rest: Option<seq<Header>>)
    ensures Before(hs, Before([h], rest)) == Before(hs + [h], rest)
  {
    if rest.Some? { assert hs + ([h] + rest.value) == (hs + [h]) + rest.value; }
  }

  // ---------------------------------------------------------------------
  // Both ways
  // ---------------------------------------------------------------------

  predicate Encodable(hs: seq<Header>) {
    |hs| <= 1024 && forall h <- hs :: |h.name| < 0x1_0000_0000 && |h.value| < 0x1_0000_0000
  }

  lemma {:induction false} ReadsStringBack(s: seq<byte>, rest: seq<byte>)
    requires |s| < 0x1_0000_0000
    ensures ReadString(Length(|s|) + s + rest) == Some((s, rest))
  {
    var buf := Length(|s|) + s + rest;
    LengthRoundTrip(|s|);
    assert buf[..4] == Length(|s|) && buf[4..4 + |s|] == s && buf[4 + |s|..] == rest;
  }

  lemma {:induction false} ReadsEntryBack(h: Header, rest: seq<byte>)
    requires |h.name| < 0x1_0000_0000 && |h.value| < 0x1_0000_0000
    ensures ReadEntry(Entry(h) + rest) == Some((h, rest))
  {
    assert Entry(h) + rest == Length(|h.name|) + h.name + (Length(|h.value|) + h.value + rest);
    ReadsStringBack(h.name, Length(|h.value|) + h.value + rest);
    ReadsStringBack(h.value, rest);
  }

  lemma {:induction false} ReadsFirstBack(h: Header, rest: seq<byte>, count: nat)
    requires |h.name| < 0x1_0000_0000 && |h.value| < 0x1_0000_0000
    ensures ReadEntries(Entry(h) + rest, count + 1) == Before([h], ReadEntries(rest, count))
  {
    ReadsEntryBack(h, rest);
  }

  lemma EntriesSplit(hs: seq<Header>, rest: seq<byte>)
    requires hs != []
    ensures Entries(hs) + rest == Entry(hs[0]) + (Entries(hs[1..]) + rest)
  {
    var first, others := Entry(hs[0]), Entries(hs[1..]);
    assert (first + others) + rest == first + (others + rest);
  }

  lemma {:induction false} ReadsEntriesBack(hs: seq<Header>, rest: seq<byte>)
    requires forall h <- hs :: |h.name| < 0x1_0000_0000 && |h.value| < 0x1_0000_0000
    ensures ReadEntries(Entries(hs) + rest, |hs|) == Some(hs)
  {
    if hs != [] {
      var tail := Entries(hs[1..]) + rest;
      EntriesSplit(hs, rest);
      ReadsFirstBack(hs[0], tail, |hs| - 1);
      ReadsEntriesBack(hs[1..], rest);
      assert hs == [hs[0]] + hs[1..];
    }
  }

  lemma {:induction false} ReadsBlockBack(hs: seq<Header>, rest: seq<byte>)
    requires Encodable(hs)
    ensures ReadBlock(Block(hs) + rest) == Some(hs)
  {
    var buf := Block(hs) + rest;
    LengthRoundTrip(|hs|);
    assert buf[..4] == Length(|hs|) && buf[4..] == Entries(hs) + rest;
    ReadsEntriesBack(hs, rest);
  }

  lemma {:induction false} StringIsPrefix(buf: seq<byte>)
    requires ReadString(buf).Some?
    ensures var (s, rest) := ReadString(buf).value;
      |s| < 0x1_0000_0000 && buf == Length(|s|) + s + rest
  {
    LengthReadsBack(buf[..4]);
  }

  lemma {:induction false} EntryIsPrefix(buf: seq<byte>)
    requires ReadEntry(buf).Some?
    ensures var (h, rest) := ReadEntry(buf).value;
      |h.name| < 0x1_0000_0000 && |h.value| < 0x1_0000_0000 && buf == Entry(h) + rest
  {
    StringIsPrefix(buf);
    StringIsPrefix(ReadString(buf).value.1);
  }

  lemma {:induction false} EntriesArePrefix(buf: seq<byte>, count: nat)
    requires ReadEntries(buf, count).Some?
    ensures var hs := ReadEntries(buf, count).value;
      && |hs| == count && Entries(hs) <= buf
      && forall h <- hs :: |h.name| < 0x1_0000_0000 && |h.value| < 0x1_0000_0000
    decreases count
  {
    if count > 0 {
      EntryIsPrefix(buf);
      EntriesArePrefix(ReadEntry(buf).value.1, count - 1);
    }
  }

  /** Whatever is read was written: the block of the pairs read is a prefix of
      the input, and nothing that cannot be written is ever read. */
  lemma {:induction false} ReadBlockIsPrefix(buf: seq<byte>)
    requires ReadBlock(buf).Some?
    ensures Encodable(ReadBlock(buf).value) && Block(ReadBlock(buf).value) <= buf
  {
    var count := FromBE32(buf[..4]);
    LengthReadsBack(buf[..4]);
    EntriesArePrefix(buf[4..], count);
    PrefixAfter(buf, Length(count), Entries(ReadBlock(buf).value));
  }

  lemma {:induction false} LengthReadsBack(b: seq<byte>)
    requires |b| == 4
    ensures Length(FromBE32(b)) == b
  {
    SmallLength(FromBE32(b));
    BE32Inverse(b);
  }

  lemma SmallLength(n: nat)
    requires n < 0x1_0000_0000
    ensures Length(n) == BE32(n)
  {
    assert n % 0x1_0000_0000 == n;
  }

  lemma {:induction false} LengthRoundTrip(n: nat)
    requires n < 0x1_0000_0000
    ensures FromBE32(Length(n)) == n
  {
    SmallLength(n);
    BE32RoundTrip(n);
  }

  lemma PrefixAfter(buf: seq<byte>, head: seq<byte>, tail: seq<byte>)
    requires |head| == 4 && |buf| >= 4 && buf[..4] == head && tail <= buf[4..]
    ensures head + tail <= buf
  {
    assert buf == buf[..4] + buf[4..];
  }

  /** A list survives writing and reading exactly when it has at most 1024
      pairs and no string of 2^32 bytes or more. */
  lemma {:induction false} RoundTripExactlyWhenEncodable(hs: seq<Header>, rest: seq<byte>)
    ensures Encodable(hs) <==> ReadBlock(Block(hs) + rest) == Some(hs)
  {
    if Encodable(hs) {
      ReadsBlockBack(hs, rest);
    } else if ReadBlock(Block(hs) + rest) == Some(hs) {
      ReadBlockIsPrefix(Block(hs) + rest);
    }
  }

  /** A block is read as a list exactly when the list is within the limits and
      its own block stands at the front. */
  lemma {:induction false} ReadBlockExactly(buf: seq<byte>, hs: seq<Header>)
    ensures ReadBlock(buf) == Some(hs) <==> Encodable(hs) && Block(hs) <= buf
  {
    if ReadBlock(buf) == Some(hs) { ReadBlockIsPrefix(buf); }
    if Encodable(hs) && Block(hs) <= buf {
      ReadsBlockBack(hs, buf[|Block(hs)|..]);
      assert buf == Block(hs) + buf[|Block(hs)|..];
    }
  }

  // ---------------------------------------------------------------------
  // Looking a header up
  // ---------------------------------------------------------------------

  function Lower(b: byte): byte {
    var n: int := b;
    if 65 <= n <= 90 then n + 32 else n
  }

  predicate SameName(a: seq<byte>, b: seq<byte>) {
    |a| == |b| && forall i :: 0 <= i < |a| ==> Lower(a[i]) == Lower(b[i])
  }

  /** The first header of that name, in any case. */
  function Get(hs: seq<Header>, name: seq<byte>): Option<Str> {
    if hs == [] then None else if SameName(hs[0].name, name) then Some(hs[0].value) else Get(hs[1..], name)
  }

  lemma {:induction false} GetFindsFirst(hs: seq<Header>, name: seq<byte>, i: nat)
    requires i < |hs| && SameName(hs[i].name, name)
    requires forall j :: 0 <= j < i ==> !SameName(hs[j].name, name)
    ensures Get(hs, name) == Some(hs[i].value)
  {
    if i > 0 { GetFindsFirst(hs[1..], name, i - 1); }
  }

  lemma {:induction false} GetIgnoresCase(hs: seq<Header>, a: seq<byte>, b: seq<byte>)
    requires SameName(a, b)
    ensures Get(hs, a) == Get(hs, b)
  {
    if hs != [] { GetIgnoresCase(hs[1..], a, b); }
  }

  /** Two names are the same exactly when they differ in the case of ASCII
      letters only. */
  lemma {:induction false} SameNameExactly(a: seq<byte>, b: seq<byte>)
    ensures SameName(a, b) <==> |a| == |b| && forall i :: 0 <= i < |a| ==>
      a[i] == b[i] || (65 <= a[i] <= 90 && b[i] as int == a[i] + 32) || (65 <= b[i] <= 90 && a[i] as int == b[i] + 32)
  {
  }

  /** The name spelled with these small letters or these capitals, in any mix. */
  predicate Spelled(name: seq<byte>, small: seq<byte>, capital: seq<byte>)
    requires |small| == |capital|
  {
    |name| == |small| && forall i :: 0 <= i < |name| ==> name[i] == small[i] || name[i] == capital[i]
  }

  /** The value of the first header of that name is v. */
  predicate FirstValue(hs: seq<Header>, small: seq<byte>, capital: seq<byte>, v: Option<seq<byte>>)
    requires |small| == |capital|
  {
    match v
    case None => forall h <- hs :: !Spelled(h.name, small, capital)
    case Some(value) => exists p :: 0 <= p < |hs| && FirstAt(hs, small, capital, p) && hs[p].value == value
  }

  predicate FirstAt(hs: seq<Header>, small: seq<byte>, capital: seq<byte>, p: nat)
    requires |small| == |capital| && p < |hs|
  {
    Spelled(hs[p].name, small, capital) && forall q :: 0 <= q < p ==> !Spelled(hs[q].name, small, capital)
  }

  /** These are the two spellings of the name, letter by letter. */
  predicate Spellings(name: seq<byte>, small: seq<byte>, capital: seq<byte>) {
    && |name| == |small| == |capital|
    && (forall i :: 0 <= i < |name| ==> 97 <= small[i] <= 122 && capital[i] as int == small[i] - 32)
    && (forall i :: 0 <= i < |name| ==> name[i] == small[i] || name[i] == capital[i])
  }

  lemma {:induction false} SpelledIsSame(n: seq<byte>, name: seq<byte>, small: seq<byte>, capital: seq<byte>)
    requires Spellings(name, small, capital)
    ensures SameName(n, name) <==> Spelled(n, small, capital)
  {
    SameNameExactly(n, name);
  }

  /** The lookup gives the value of the first header of the name. */
  lemma {:induction false} GetIsFirstValue(hs: seq<Header>, name: seq<byte>, small: seq<byte>, capital: seq<byte>, v: Option<seq<byte>>)
    requires Spellings(name, small, capital) && FirstValue(hs, small, capital, v)
    ensures match Get(hs, name) case None => v.None? case Some(value) => v == Some(value)
  {
    forall n ensures SameName(n, name) <==> Spelled(n, small, capital) { SpelledIsSame(n, name, small, capital); }
    match v
    case None => NoneFound(hs, name);
    case Some(value) =>
      var p :| 0 <= p < |hs| && FirstAt(hs, small, capital, p) && hs[p].value == value;
      GetFindsFirst(hs, name, p);
  }

  /** There is such a value for every list. */
  lemma {:induction false} ValueOfFirst(hs: seq<Header>, small: seq<byte>, capital: seq<byte>) returns (v: Option<seq<byte>>)
    requires |small| == |capital|
    ensures FirstValue(hs, small, capital, v)
  {
    if hs == [] {
      v := None;
    } else if Spelled(hs[0].name, small, capital) {
      v := Some(hs[0].value);
      assert FirstAt(hs, small, capital, 0);
    } else {
      v := ValueOfFirst(hs[1..], small, capital);
      if v.Some? {
        var p :| 0 <= p < |hs[1..]| && FirstAt(hs[1..], small, capital, p) && hs[1..][p].value == v.value;
        forall q | 0 <= q < p + 1 ensures !Spelled(hs[q].name, small, capital) {
          if q > 0 { assert hs[1..][q - 1] == hs[q]; }
        }
        assert FirstAt(hs, small, capital, p + 1);
      } else {
        assert forall h <- hs :: h == hs[0] || h in hs[1..];
      }
    }
  }

  lemma {:induction false} NoneFound(hs: seq<Header>, name: seq<byte>)
    requires forall h <- hs :: !SameName(h.name, name)
    ensures Get(hs, name) == None
  {
    if hs != [] {
      assert hs[0] in hs;
      NoneFound(hs[1..], name);
    }
  }

  // ---------------------------------------------------------------------
  // What the strings are
  // ---------------------------------------------------------------------

  /** The Unicode scalar values: no surrogates. */
  predicate Scalar(c: nat) { c < 0xD800 || 0xE000 <= c <= 0x10FFFF }

  predicate AllScalar(cs: seq<nat>) { forall i :: 0 <= i < |cs| ==> Scalar(cs[i]) }

  /** The encoding of one character (RFC 3629, section 3). */
  function Char(c: nat): (s: seq<byte>)
    requires Scalar(c)
  {
    var low: int, mid: int, high: int := 0x80 + c % 64, 0x80 + c / 64 % 64, 0x80 + c / 4096 % 64;
    if c < 0x80 then [c]
    else if c < 0x800 then var lead: int := 0xC0 + c / 64; [lead, low]
    else if c < 0x10000 then var lead: int := 0xE0 + c / 4096; [lead, mid, low]
    else var lead: int := 0xF0 + c / 262144; [lead, high, mid, low]
  }

  function Chars(cs: seq<nat>): seq<byte>
    requires AllScalar(cs)
  {
    if cs == [] then [] else Char(cs[0]) + Chars(cs[1..])
  }

  /** The character that n bytes spell. */
  function CharOf(s: seq<byte>): nat
    requires 1 <= |s| <= 4
  {
    var a: int := s[0];
    if |s| == 1 then a
    else if |s| == 2 then var b: int := s[1]; if a >= 0xC0 && b >= 0x80 then 64 * (a - 0xC0) + (b - 0x80) else 0
    else if |s| == 3 then
      var b: int, c: int := s[1], s[2];
      if a >= 0xE0 && b >= 0x80 && c >= 0x80 then 4096 * (a - 0xE0) + 64 * (b - 0x80) + (c - 0x80) else 0
    else
      var b: int, c: int, d: int := s[1], s[2], s[3];
      if a >= 0xF0 && b >= 0x80 && c >= 0x80 && d >= 0x80 then
        262144 * (a - 0xF0) + 4096 * (b - 0x80) + 64 * (c - 0x80) + (d - 0x80)
      else 0
  }

  lemma SixBits(high: nat, low: nat)
    requires low < 64
    ensures (64 * high + low) / 64 == high && (64 * high + low) % 64 == low
  {
  }

  lemma TwelveBits(high: nat, mid: nat, low: nat)
    requires mid < 64 && low < 64
    ensures var c := 4096 * high + 64 * mid + low;
      c / 4096 == high && c / 64 % 64 == mid && c % 64 == low
  {
    SixBits(64 * high + mid, low);
    SixBits(high, mid);
  }

  lemma EighteenBits(lead: nat, high: nat, mid: nat, low: nat)
    requires high < 64 && mid < 64 && low < 64
    ensures var c := 262144 * lead + 4096 * high + 64 * mid + low;
      c / 262144 == lead && c / 4096 % 64 == high && c / 64 % 64 == mid && c % 64 == low
  {
    TwelveBits(64 * lead + high, mid, low);
    SixBits(lead, high);
  }

  lemma {:induction false} FoundTwo(a: byte, b: byte)
    requires 0xC2 <= a <= 0xDF && Tail(b)
    ensures var c := CharOf([a, b]); Scalar(c) && Char(c) == [a, b]
  {
    SixBits(a - 0xC0, b - 0x80);
  }

  lemma {:induction false} FoundThree(a: byte, b: byte, d: byte)
    requires 0xE0 <= a <= 0xEF && Tail(b) && Tail(d) && (a == 0xE0 ==> b >= 0xA0) && (a == 0xED ==> b <= 0x9F)
    ensures var c := CharOf([a, b, d]); Scalar(c) && Char(c) == [a, b, d]
  {
    TwelveBits(a - 0xE0, b - 0x80, d - 0x80);
  }

  lemma {:induction false} FoundFour(a: byte, b: byte, d: byte, e: byte)
    requires 0xF0 <= a <= 0xF4 && Tail(b) && Tail(d) && Tail(e) && (a == 0xF0 ==> b >= 0x90) && (a == 0xF4 ==> b <= 0x8F)
    ensures var c := CharOf([a, b, d, e]); Scalar(c) && Char(c) == [a, b, d, e]
  {
    EighteenBits(a - 0xF0, b - 0x80, d - 0x80, e - 0x80);
  }

  /** A character found at the front is the encoding of a scalar value. */
  lemma {:induction false} FoundIsChar(s: seq<byte>)
    requires CharLength(s) > 0
    ensures var c := CharOf(s[..CharLength(s)]); Scalar(c) && Char(c) == s[..CharLength(s)]
  {
    var n := CharLength(s);
    if n == 2 {
      assert s[..n] == [s[0], s[1]];
      FoundTwo(s[0], s[1]);
    } else if n == 3 {
      assert s[..n] == [s[0], s[1], s[2]];
      FoundThree(s[0], s[1], s[2]);
    } else if n == 4 {
      assert s[..n] == [s[0], s[1], s[2], s[3]];
      FoundFour(s[0], s[1], s[2], s[3]);
    }
  }

  /** And each scalar value is found where its encoding stands. */
  lemma {:induction false} CharIsFound(c: nat, rest: seq<byte>)
    requires Scalar(c)
    ensures CharLength(Char(c) + rest) == |Char(c)| > 0
  {
  }

  /** The strings of a header are exactly the encodings of texts. */
  lemma {:induction false} Utf8Exactly(s: seq<byte>)
    ensures Utf8(s) <==> exists cs: seq<nat> :: AllScalar(cs) && Chars(cs) == s
  {
    if Utf8(s) { var _ := TextOf(s); }
    forall cs: seq<nat> | AllScalar(cs) && Chars(cs) == s ensures Utf8(s) { TextIsUtf8(cs); }
  }

  lemma {:induction false} TextOf(s: seq<byte>) returns (cs: seq<nat>)
    requires Utf8(s)
    ensures AllScalar(cs) && Chars(cs) == s
    decreases |s|
  {
    if s == [] {
      cs := [];
    } else {
      var n := CharLength(s);
      FoundIsChar(s);
      var rest := TextOf(s[n..]);
      cs := [CharOf(s[..n])] + rest;
      assert cs[1..] == rest && s == s[..n] + s[n..];
    }
  }

  lemma {:induction false} TextIsUtf8(cs: seq<nat>)
    requires AllScalar(cs)
    ensures Utf8(Chars(cs))
  {
    if cs != [] {
      CharIsFound(cs[0], Chars(cs[1..]));
      TextIsUtf8(cs[1..]);
      assert (Char(cs[0]) + Chars(cs[1..]))[|Char(cs[0])|..] == Chars(cs[1..]);
    }
  }
}

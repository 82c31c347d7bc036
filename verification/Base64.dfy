/** Base64 with the standard and the URL alphabet (RFC 4648, sections 4 and
    5). The decoder shifts every symbol through a 32-bit accumulator whose
    high bits fall off. */
module Base64 {

  import opened Options
  import opened Bytes

  const UPPER := "ABCDEFGHIJKLMNOPQRSTUVWXYZ"
  const LOWER := "abcdefghijklmnopqrstuvwxyz"
  const DIGITS := "0123456789"
  const STD_ALPHABET := UPPER + LOWER + DIGITS + "+/"
  const URL_ALPHABET := UPPER + LOWER + DIGITS + "-_"

  const PAD: byte := 61
  const CR: byte := 13
  const LF: byte := 10

  type Sextet = n: nat | n < 64

  predicate Skipped(b: byte) { b == PAD || b == CR || b == LF }

  /** The two alphabets as the ranges they are made of. */
  function Letter(url: bool, k: Sextet): byte {
    if k < 26 then 65 + k
    else if k < 52 then 71 + k
    else if k < 62 then k - 4
    else if k == 62 then (if url then 45 else 43)
    else if url then 95 else 47
  }

  function Alphabet(url: bool): string { if url then URL_ALPHABET else STD_ALPHABET }

  lemma LettersInRanges()
    ensures |UPPER| == 26 && forall k :: 0 <= k < 26 ==> UPPER[k] as int == 65 + k
    ensures |LOWER| == 26 && forall k :: 0 <= k < 26 ==> LOWER[k] as int == 97 + k
    ensures |DIGITS| == 10 && forall k :: 0 <= k < 10 ==> DIGITS[k] as int == 48 + k
  {
  }

  lemma AlphabetLetters(url: bool, k: nat)
    requires k < 64
    ensures |Alphabet(url)| == 64 && Alphabet(url)[k] as int == Letter(url, k)
  {
    LettersInRanges();
  }

  // ---------------------------------------------------------------------
  // Encoding
  // ---------------------------------------------------------------------

  /** The 24 bits of three bytes. */
  function Word(a: byte, b: byte, c: byte): (n: nat)
    ensures n < 0x100_0000
  {
    var high: int, middle: int, low: int := a, b, c;
    65536 * high + 256 * middle + low
  }

  /** Six bits of the word: `(n >> shift) & 0x3f`, for a shift of 18, 12, 6 or 0. */
  function SextetAt(n: nat, place: nat): Sextet {
    match place
    case 0 => n / 0x4_0000 % 64
    case 1 => n / 0x1000 % 64
    case 2 => n / 64 % 64
    case _ => n % 64
  }

  function Symbol(url: bool, n: nat, place: nat): byte { Letter(url, SextetAt(n, place)) }

  function Quad(url: bool, a: byte, b: byte, c: byte): (s: seq<byte>)
    ensures |s| == 4
  {
    var n := Word(a, b, c);
    [Symbol(url, n, 0), Symbol(url, n, 1), Symbol(url, n, 2), Symbol(url, n, 3)]
  }

  /** The one or two bytes after the last whole triple. */
  function Remainder(url: bool, pad: bool, rem: seq<byte>): seq<byte>
    requires |rem| < 3
  {
    if |rem| == 1 then
      var n := Word(rem[0], 0, 0);
      [Symbol(url, n, 0), Symbol(url, n, 1)] + if pad then [PAD, PAD] else []
    else if |rem| == 2 then
      var n := Word(rem[0], rem[1], 0);
      [Symbol(url, n, 0), Symbol(url, n, 1), Symbol(url, n, 2)] + if pad then [PAD] else []
    else []
  }

  function Encoded(url: bool, pad: bool, input: seq<byte>): seq<byte> {
    if |input| < 3 then Remainder(url, pad, input)
    else Quad(url, input[0], input[1], input[2]) + Encoded(url, pad, input[3..])
  }

  method EncodeWith(url: bool, pad: bool, input: seq<byte>) returns (out: seq<byte>)
    ensures out == Encoded(url, pad, input)
  {
    out := [];
    var i := 0;
    assert input[0..] == input && [] + Encoded(url, pad, input) == Encoded(url, pad, input);
    while i + 3 <= |input|
      invariant 0 <= i <= |input|
      invariant Encoded(url, pad, input) == out + Encoded(url, pad, input[i..])
    {
      var n := Word(input[i], input[i + 1], input[i + 2]);
      EncodedStep(url, pad, input, i, out);
      out := out + [Symbol(url, n, 0)];
      out := out + [Symbol(url, n, 1)];
      out := out + [Symbol(url, n, 2)];
      out := out + [Symbol(url, n, 3)];
      i := i + 3;
    }
    out := out + Remainder(url, pad, input[i..]);
  }

  lemma EncodedStep(url: bool, pad: bool, input: seq<byte>, i: nat, out: seq<byte>)
    requires i + 3 <= |input|
    ensures var n := Word(input[i], input[i + 1], input[i + 2]);
      out + Encoded(url, pad, input[i..]) ==
      out + [Symbol(url, n, 0)] + [Symbol(url, n, 1)] + [Symbol(url, n, 2)] + [Symbol(url, n, 3)]
      + Encoded(url, pad, input[i + 3..])
  {
    assert input[i..][3..] == input[i + 3..];
  }

  // ---------------------------------------------------------------------
  // Decoding
  // ---------------------------------------------------------------------

  /** The position of the first occurrence. */
  function Position(t: string, b: byte): (p: Option<nat>)
    ensures p.Some? ==> p.value < |t| && t[p.value] as int == b
  {
    if t == "" then None
    else if t[0] as int == b then Some(0)
    else match Position(t[1..], b)
      case None => None
      case Some(p) => Some(p + 1)
  }

  lemma {:induction false} PositionOfUnique(t: string, k: nat)
    requires k < |t| && t[k] as int < 256
    requires forall j :: 0 <= j < k ==> t[j] != t[k]
    ensures Position(t, t[k] as int) == Some(k)
  {
    if k > 0 { PositionOfUnique(t[1..], k - 1); }
  }

  /** `decode_value` */
  function Value(url: bool, b: byte): (v: Option<Sextet>)
    ensures v.Some? ==> Letter(url, v.value) == b
  {
    AlphabetLetters(url, 0);
    match Position(Alphabet(url), b)
    case None => None
    case Some(p) => AlphabetLetters(url, p); Some(p)
  }

  lemma {:induction false} LettersDecode(url: bool, k: nat)
    requires k < 64
    ensures Value(url, Letter(url, k)) == Some(k) && !Skipped(Letter(url, k))
  {
    AlphabetLetters(url, k);
    forall j | 0 <= j < k
      ensures Alphabet(url)[j] != Alphabet(url)[k]
    {
      AlphabetLetters(url, j);
    }
    PositionOfUnique(Alphabet(url), k);
  }

  /** How many bits may be left over between two symbols. */
  type Spare = n: nat | n == 0 || n == 2 || n == 4 || n == 6

  /** The byte made of the last nbits bits of one symbol and the first of the next. */
  function ByteOf(last: Sextet, v: Sextet, nbits: Spare): (b: nat)
    requires nbits > 0
    ensures b < 256
  {
    if nbits == 6 then 4 * last + v / 16
    else if nbits == 4 then 16 * (last % 16) + v / 4
    else 64 * (last % 4) + v
  }

  /** Decoding as it is meant: each byte comes from two neighbouring symbols,
      and only the last symbol is remembered, with how many of its bits are
      still unused. */
  function Decoded(url: bool, input: seq<byte>, last: Sextet, nbits: Spare): Option<seq<byte>> {
    if input == [] then Some([])
    else if Skipped(input[0]) then Decoded(url, input[1..], last, nbits)
    else match Value(url, input[0])
      case None => None
      case Some(v) =>
        if nbits == 0 then Decoded(url, input[1..], v, 6)
        else Emitted(ByteOf(last, v, nbits), Decoded(url, input[1..], v, nbits - 2))
  }

  function Emitted(b: byte, rest: Option<seq<byte>>): Option<seq<byte>> {
    if rest.Some? then Some([b] + rest.value) else None
  }

  function After(out: seq<byte>, rest: Option<seq<byte>>): Option<seq<byte>> {
    if rest.Some? then Some(out + rest.value) else None
  }

  const U32_SIZE: nat := 0x1_0000_0000

  /** One symbol through the accumulator: six bits in, eight bits out when
      there are that many. Bits that fall off the top are never missed. */
  method Shift(acc: nat, nbits: Spare, v: Sextet) returns (acc': nat, nbits': Spare, emitted: Option<byte>)
    requires acc < U32_SIZE
    ensures acc' < U32_SIZE && acc' % 64 == v
    ensures if nbits == 0 then nbits' == 6 && emitted == None
      else nbits' == nbits - 2 && emitted == Some(ByteOf(acc % 64, v, nbits))
  {
    ShiftIn(acc, v);
    acc' := acc * 64 % U32_SIZE + v;
    var bits := nbits + 6;
    emitted := None;
    if bits >= 8 {
      bits := bits - 8;
      emitted := Some(if bits == 4 then acc' / 16 % 256 else if bits == 2 then acc' / 4 % 256 else acc' % 256);
    }
    nbits' := bits;
  }

  /** `decode_std`. The accumulator keeps 32 bits and loses the rest, which no
      byte ever needs. */
  method DecodeWith(url: bool, input: seq<byte>) returns (r: Option<seq<byte>>)
    ensures r == Decoded(url, input, 0, 0)
  {
    var acc: nat, nbits: Spare := 0, 0;
    var out: seq<byte> := [];
    NothingDecoded(url, input);
    for i := 0 to |input|
      invariant acc < U32_SIZE && DecodedSoFar(url, input, i, out, acc % 64, nbits)
    {
      ghost var last, had := acc % 64, nbits;
      var b := input[i];
      if Skipped(b) {
        NoLetterDecoded(url, input, i, out, last, had);
      } else {
        var v := Value(url, b);
        if v.None? {
          NoLetterDecoded(url, input, i, out, last, had);
          return None;
        }
        var emitted;
        acc, nbits, emitted := Shift(acc, nbits, v.value);
        LetterDecoded(url, input, i, out, last, had, v.value);
        if emitted.Some? {
          out := out + [emitted.value];
        }
      }
    }
    AllDecoded(url, input, out, acc % 64, nbits);
    return Some(out);
  }

  /** The whole result is what was emitted, then what the rest decodes to. */
  predicate DecodedSoFar(url: bool, input: seq<byte>, i: nat, out: seq<byte>, last: Sextet, nbits: Spare)
    requires i <= |input|
  {
    Decoded(url, input, 0, 0) == After(out, Decoded(url, input[i..], last, nbits))
  }

  lemma NothingDecoded(url: bool, input: seq<byte>)
    ensures DecodedSoFar(url, input, 0, [], 0, 0)
  {
    assert input[0..] == input;
    var r := Decoded(url, input, 0, 0);
    if r.Some? { assert [] + r.value == r.value; }
  }

  lemma NoLetterDecoded(url: bool, input: seq<byte>, i: nat, out: seq<byte>, last: Sextet, nbits: Spare)
    requires i < |input| && DecodedSoFar(url, input, i, out, last, nbits)
    ensures Skipped(input[i]) ==> DecodedSoFar(url, input, i + 1, out, last, nbits)
    ensures !Skipped(input[i]) && Value(url, input[i]).None? ==> Decoded(url, input, 0, 0).None?
  {
    assert input[i..][1..] == input[i + 1..];
  }

  lemma LetterDecoded(url: bool, input: seq<byte>, i: nat, out: seq<byte>, last: Sextet, nbits: Spare, v: Sextet)
    requires i < |input| && DecodedSoFar(url, input, i, out, last, nbits)
    requires !Skipped(input[i]) && Value(url, input[i]) == Some(v)
    ensures nbits == 0 ==> DecodedSoFar(url, input, i + 1, out, v, 6)
    ensures nbits > 0 ==> DecodedSoFar(url, input, i + 1, out + [ByteOf(last, v, nbits)], v, nbits - 2)
  {
    assert input[i..][1..] == input[i + 1..];
    if nbits > 0 {
      AfterEmitted(out, ByteOf(last, v, nbits), Decoded(url, input[i + 1..], v, nbits - 2));
    }
  }

  lemma AllDecoded(url: bool, input: seq<byte>, out: seq<byte>, last: Sextet, nbits: Spare)
    requires DecodedSoFar(url, input, |input|, out, last, nbits)
    ensures Decoded(url, input, 0, 0) == Some(out)
  {
    assert out + [] == out;
  }

  lemma AfterEmitted(out: seq<byte>, b: byte, rest: Option<seq<byte>>)
    ensures After(out, Emitted(b, rest)) == After(out + [b], rest)
  {
    if rest.Some? { assert out + ([b] + rest.value) == (out + [b]) + rest.value; }
  }

  /** The accumulator after six more bits: whatever fell off the top, the last
      symbol and the byte that straddles the last two are where they should be. */
  lemma {:induction false} ShiftIn(acc: nat, v: Sextet)
    requires acc < U32_SIZE
    ensures var wrapped := acc * 64 % U32_SIZE + v;
      && wrapped < U32_SIZE && wrapped % 64 == v
      && wrapped / 16 % 256 == ByteOf(acc % 64, v, 6)
      && wrapped / 4 % 256 == ByteOf(acc % 64, v, 4)
      && wrapped % 256 == ByteOf(acc % 64, v, 2)
  {
    WrapIsShift(acc);
    var a := acc % 0x400_0000;
    assert a % 64 == acc % 64;
    Straddling(a / 64, a % 64, v);
  }

  /** What falls off the top is six whole bits. */
  lemma {:induction false} WrapIsShift(acc: nat)
    requires acc < U32_SIZE
    ensures acc * 64 % U32_SIZE == 64 * (acc % 0x400_0000)
  {
    var q, a := acc / 0x400_0000, acc % 0x400_0000;
    assert acc * 64 == U32_SIZE * q + 64 * a;
  }

  lemma {:induction false} Straddling(q: nat, last: Sextet, v: Sextet)
    ensures var bits := 64 * (64 * q + last) + v;
      && bits % 64 == v
      && bits / 16 % 256 == ByteOf(last, v, 6)
      && bits / 4 % 256 == ByteOf(last, v, 4)
      && bits % 256 == ByteOf(last, v, 2)
  {
    StraddlingSix(q, last, v / 16, v % 16);
    StraddlingFour(q, last / 16, last % 16, v / 4, v % 4);
    StraddlingTwo(q, last / 4, last % 4, v);
  }

  lemma {:induction false} StraddlingSix(q: nat, last: nat, h: nat, l: nat)
    requires last < 64 && h < 4 && l < 16
    ensures (64 * (64 * q + last) + (16 * h + l)) / 16 % 256 == 4 * last + h
  {
    assert (64 * (64 * q + last) + (16 * h + l)) / 16 == 256 * q + (4 * last + h);
  }

  lemma {:induction false} StraddlingFour(q: nat, top: nat, low: nat, h: nat, l: nat)
    requires top < 4 && low < 16 && h < 16 && l < 4
    ensures (64 * (64 * q + (16 * top + low)) + (4 * h + l)) / 4 % 256 == 16 * low + h
  {
    assert (64 * (64 * q + (16 * top + low)) + (4 * h + l)) / 4 == 256 * (4 * q + top) + (16 * low + h);
  }

  lemma {:induction false} StraddlingTwo(q: nat, top: nat, low: nat, v: nat)
    requires top < 16 && low < 4 && v < 64
    ensures (64 * (64 * q + (4 * top + low)) + v) % 256 == 64 * low + v
  {
    assert 64 * (64 * q + (4 * top + low)) + v == 256 * (16 * q + top) + (64 * low + v);
  }

  // ---------------------------------------------------------------------
  // Round trip
  // ---------------------------------------------------------------------

  /** The four symbols of three bytes. */
  lemma {:induction false} SextetsOf(a: byte, b: byte, c: byte)
    ensures var n := Word(a, b, c);
      && SextetAt(n, 0) == a / 4
      && SextetAt(n, 1) == 16 * (a % 4) + b / 16
      && SextetAt(n, 2) == 4 * (b % 16) + c / 64
      && SextetAt(n, 3) == c % 64
  {
    var n := Word(a, b, c);
    assert n / 0x4_0000 == a / 4;
    assert n / 0x1000 == 16 * (a as int) + b / 16;
    assert n / 64 == 1024 * (a as int) + 4 * (b as int) + c / 64;
  }

  lemma {:induction false} DecodeLetter(url: bool, v: Sextet, rest: seq<byte>, last: Sextet, nbits: Spare)
    ensures Decoded(url, [Letter(url, v)] + rest, last, nbits) ==
      if nbits == 0 then Decoded(url, rest, v, 6)
      else Emitted(ByteOf(last, v, nbits), Decoded(url, rest, v, nbits - 2))
  {
    LettersDecode(url, v);
    assert ([Letter(url, v)] + rest)[1..] == rest;
  }

  /** The three bytes of a word straddle its four symbols. */
  lemma {:induction false} BytesOfSextets(a: byte, b: byte, c: byte)
    ensures var n := Word(a, b, c);
      && ByteOf(SextetAt(n, 0), SextetAt(n, 1), 6) == a as int
      && ByteOf(SextetAt(n, 1), SextetAt(n, 2), 4) == b as int
      && ByteOf(SextetAt(n, 2), SextetAt(n, 3), 2) == c as int
  {
    SextetsOf(a, b, c);
    assert (16 * (a % 4) + b / 16) / 16 == a % 4 && (16 * (a % 4) + b / 16) % 16 == b / 16;
    assert (4 * (b % 16) + c / 64) / 4 == b % 16 && (4 * (b % 16) + c / 64) % 4 == c / 64;
  }

  lemma {:induction false} DecodeFirstByte(url: bool, a: byte, b: byte, c: byte, rest: seq<byte>)
    ensures var n := Word(a, b, c);
      Decoded(url, [Symbol(url, n, 0)] + ([Symbol(url, n, 1)] + rest), 0, 0)
      == Emitted(a, Decoded(url, rest, SextetAt(n, 1), 4))
  {
    var n := Word(a, b, c);
    BytesOfSextets(a, b, c);
    DecodeLetter(url, SextetAt(n, 0), [Symbol(url, n, 1)] + rest, 0, 0);
    DecodeLetter(url, SextetAt(n, 1), rest, SextetAt(n, 0), 6);
  }

  lemma {:induction false} DecodeSecondByte(url: bool, a: byte, b: byte, c: byte, rest: seq<byte>)
    ensures var n := Word(a, b, c);
      Decoded(url, [Symbol(url, n, 2)] + rest, SextetAt(n, 1), 4) == Emitted(b, Decoded(url, rest, SextetAt(n, 2), 2))
  {
    BytesOfSextets(a, b, c);
    DecodeLetter(url, SextetAt(Word(a, b, c), 2), rest, SextetAt(Word(a, b, c), 1), 4);
  }

  lemma {:induction false} DecodeThirdByte(url: bool, a: byte, b: byte, c: byte, rest: seq<byte>)
    ensures var n := Word(a, b, c);
      Decoded(url, [Symbol(url, n, 3)] + rest, SextetAt(n, 2), 2) == Emitted(c, Decoded(url, rest, SextetAt(n, 3), 0))
  {
    BytesOfSextets(a, b, c);
    DecodeLetter(url, SextetAt(Word(a, b, c), 3), rest, SextetAt(Word(a, b, c), 2), 2);
  }

  /** Between whole bytes, the last symbol no longer matters. */
  lemma {:induction false} NothingSpare(url: bool, input: seq<byte>, a: Sextet, b: Sextet)
    ensures Decoded(url, input, a, 0) == Decoded(url, input, b, 0)
  {
    if input != [] && Skipped(input[0]) { NothingSpare(url, input[1..], a, b); }
  }

  lemma {:induction false} DecodeQuad(url: bool, a: byte, b: byte, c: byte, rest: seq<byte>)
    ensures Decoded(url, Quad(url, a, b, c) + rest, 0, 0) == After([a, b, c], Decoded(url, rest, 0, 0))
  {
    var n := Word(a, b, c);
    var third := [Symbol(url, n, 3)] + rest;
    var second := [Symbol(url, n, 2)] + third;
    QuadInSteps(url, n, Quad(url, a, b, c), rest);
    DecodeFirstByte(url, a, b, c, second);
    DecodeSecondByte(url, a, b, c, third);
    DecodeThirdByte(url, a, b, c, rest);
    NothingSpare(url, rest, SextetAt(n, 3), 0);
    EmittedThrice(a, b, c, Decoded(url, rest, 0, 0));
  }

  lemma QuadInSteps(url: bool, n: nat, quad: seq<byte>, rest: seq<byte>)
    requires quad == [Symbol(url, n, 0), Symbol(url, n, 1), Symbol(url, n, 2), Symbol(url, n, 3)]
    ensures quad + rest ==
      [Symbol(url, n, 0)] + ([Symbol(url, n, 1)] + ([Symbol(url, n, 2)] + ([Symbol(url, n, 3)] + rest)))
  {
    var w, x, y, z := Symbol(url, n, 0), Symbol(url, n, 1), Symbol(url, n, 2), Symbol(url, n, 3);
    assert [w, x, y, z] + rest == [w] + ([x] + ([y] + ([z] + rest)));
  }

  lemma EmittedThrice(a: byte, b: byte, c: byte, rest: Option<seq<byte>>)
    ensures Emitted(a, Emitted(b, Emitted(c, rest))) == After([a, b, c], rest)
  {
    if rest.Some? { assert [a] + ([b] + ([c] + rest.value)) == [a, b, c] + rest.value; }
  }

  lemma PadsAreSkipped(url: bool, last: Sextet, nbits: Spare)
    ensures Decoded(url, [], last, nbits) == Some([])
    ensures Decoded(url, [PAD], last, nbits) == Some([])
    ensures Decoded(url, [PAD, PAD], last, nbits) == Some([])
  {
    assert [PAD, PAD][1..] == [PAD] && [PAD][1..] == [];
  }

  lemma {:induction false} DecodeRemainder(url: bool, pad: bool, rem: seq<byte>)
    requires |rem| < 3
    ensures Decoded(url, Remainder(url, pad, rem), 0, 0) == Some(rem)
  {
    if |rem| == 1 {
      var pads := if pad then [PAD, PAD] else [];
      PadsAreSkipped(url, SextetAt(Word(rem[0], 0, 0), 1), 4);
      DecodeLastOne(url, rem[0], pads);
      assert rem == [rem[0]];
    } else if |rem| == 2 {
      var pads := if pad then [PAD] else [];
      PadsAreSkipped(url, SextetAt(Word(rem[0], rem[1], 0), 2), 2);
      DecodeLastTwo(url, rem[0], rem[1], pads);
      assert rem == [rem[0], rem[1]];
    }
  }

  lemma {:induction false} DecodeLastOne(url: bool, a: byte, pads: seq<byte>)
    requires Decoded(url, pads, SextetAt(Word(a, 0, 0), 1), 4) == Some([])
    ensures var n := Word(a, 0, 0);
      Decoded(url, [Symbol(url, n, 0), Symbol(url, n, 1)] + pads, 0, 0) == Some([a])
  {
    var n := Word(a, 0, 0);
    TwoInSteps(Symbol(url, n, 0), Symbol(url, n, 1), pads);
    DecodeFirstByte(url, a, 0, 0, pads);
    EmittedLast(a);
  }

  lemma {:induction false} DecodeLastTwo(url: bool, a: byte, b: byte, pads: seq<byte>)
    requires Decoded(url, pads, SextetAt(Word(a, b, 0), 2), 2) == Some([])
    ensures var n := Word(a, b, 0);
      Decoded(url, [Symbol(url, n, 0), Symbol(url, n, 1), Symbol(url, n, 2)] + pads, 0, 0) == Some([a, b])
  {
    var n := Word(a, b, 0);
    ThreeInSteps(Symbol(url, n, 0), Symbol(url, n, 1), Symbol(url, n, 2), pads);
    DecodeFirstByte(url, a, b, 0, [Symbol(url, n, 2)] + pads);
    DecodeSecondByte(url, a, b, 0, pads);
    EmittedLast(b);
    assert [a] + [b] == [a, b];
  }

  lemma EmittedLast(b: byte)
    ensures Emitted(b, Some([])) == Some([b])
  {
    assert [b] + [] == [b];
  }

  lemma TwoInSteps(x: byte, y: byte, rest: seq<byte>)
    ensures [x, y] + rest == [x] + ([y] + rest)
  {
  }

  lemma ThreeInSteps(x: byte, y: byte, z: byte, rest: seq<byte>)
    ensures [x, y, z] + rest == [x] + ([y] + ([z] + rest))
  {
    TwoInSteps(y, z, rest);
    assert [x, y, z] == [x] + [y, z];
  }

  /** Decoding undoes encoding, for every input, with either alphabet and with
      or without padding. */
  lemma {:induction false} DecodeEncoded(url: bool, pad: bool, input: seq<byte>)
    ensures Decoded(url, Encoded(url, pad, input), 0, 0) == Some(input)
  {
    if |input| < 3 {
      DecodeRemainder(url, pad, input);
    } else {
      DecodeQuad(url, input[0], input[1], input[2], Encoded(url, pad, input[3..]));
      DecodeEncoded(url, pad, input[3..]);
      assert [input[0], input[1], input[2]] + input[3..] == input;
    }
  }

  lemma {:induction false} EncodingIsInjective(url: bool, pad: bool, a: seq<byte>, b: seq<byte>)
    requires Encoded(url, pad, a) == Encoded(url, pad, b)
    ensures a == b
  {
    DecodeEncoded(url, pad, a);
    DecodeEncoded(url, pad, b);
  }

  /** Four symbols for every three bytes, rounded up to whole quads with
      padding and to whole symbols without. */
  lemma {:induction false} EncodedLength(url: bool, pad: bool, input: seq<byte>)
    ensures |Encoded(url, pad, input)| == if pad then 4 * ((|input| + 2) / 3) else (4 * |input| + 2) / 3
  {
    if |input| >= 3 { EncodedLength(url, pad, input[3..]); }
  }

  predicate UrlSafe(b: byte) {
    65 <= b <= 90 || 97 <= b <= 122 || 48 <= b <= 57 || b == 45 || b == 95
  }

  /** A token needs no escaping in a URL. */
  lemma {:induction false} UrlEncodingIsSafe(input: seq<byte>, i: nat)
    requires i < |Encoded(true, false, input)|
    ensures UrlSafe(Encoded(true, false, input)[i])
  {
    if |input| >= 3 && i >= 4 { UrlEncodingIsSafe(input[3..], i - 4); }
  }

  predicate Decodable(url: bool, b: byte) { Skipped(b) || Value(url, b).Some? }

  /** Decoding fails exactly when a byte is neither skipped nor in the alphabet. */
  lemma {:induction false} DecodesExactlyLetters(url: bool, input: seq<byte>, last: Sextet, nbits: Spare)
    ensures Decoded(url, input, last, nbits).Some? <==> forall b <- input :: Decodable(url, b)
  {
    if input != [] {
      DecodableFirst(url, input);
      var v := Value(url, input[0]);
      if Skipped(input[0]) {
        DecodesExactlyLetters(url, input[1..], last, nbits);
      } else if v.Some? {
        DecodesExactlyLetters(url, input[1..], v.value, if nbits == 0 then 6 else nbits - 2);
      }
    }
  }

  lemma DecodableFirst(url: bool, input: seq<byte>)
    requires input != []
    ensures (forall b <- input :: Decodable(url, b)) <==>
      Decodable(url, input[0]) && forall b <- input[1..] :: Decodable(url, b)
  {
    assert input == [input[0]] + input[1..];
    forall b | b in input[1..]
      ensures b in input
    {
    }
    forall b | b in input
      ensures b == input[0] || b in input[1..]
    {
    }
  }

  /** The bytes the decoder takes: the padding sign and line ends, which it
      skips, and the letters of its alphabet. */
  predicate Accepted(url: bool, b: byte) {
    || b == 61 || b == 13 || b == 10
    || 65 <= b <= 90 || 97 <= b <= 122 || 48 <= b <= 57
    || (if url then b == 45 || b == 95 else b == 43 || b == 47)
  }

  lemma {:induction false} DecodableExactly(url: bool, b: byte)
    ensures Decodable(url, b) <==> Accepted(url, b)
  {
    if 65 <= b <= 90 { LettersDecode(url, b - 65); }
    else if 97 <= b <= 122 { LettersDecode(url, b - 71); }
    else if 48 <= b <= 57 { LettersDecode(url, b + 4); }
    else if Accepted(url, b) && !Skipped(b) { LettersDecode(url, if b == 43 || b == 45 then 62 else 63); }
  }

  /** Decoding a whole input fails exactly when it holds any other byte. */
  lemma {:induction false} DecodesExactly(url: bool, input: seq<byte>)
    ensures Decoded(url, input, 0, 0).Some? <==> forall b <- input :: Accepted(url, b)
  {
    DecodesExactlyLetters(url, input, 0, 0);
    forall b | b in input ensures Decodable(url, b) <==> Accepted(url, b) { DecodableExactly(url, b); }
  }

  /** The padding signs for an input of this length. */
  function Pads(n: nat): seq<byte> { if n % 3 == 0 then [] else if n % 3 == 1 then [61, 61] else [61] }

  lemma {:induction false} RemainderPads(url: bool, input: seq<byte>)
    requires |input| < 3
    ensures Remainder(url, true, input) == Remainder(url, false, input) + Pads(|input|)
  {
  }

  /** Padding is that many "=" behind the unpadded encoding. */
  lemma {:induction false} PaddingIsEquals(url: bool, input: seq<byte>)
    ensures Encoded(url, true, input) == Encoded(url, false, input) + Pads(|input|)
  {
    if |input| < 3 {
      RemainderPads(url, input);
    } else {
      PaddingIsEquals(url, input[3..]);
      QuadPadded(url, input);
    }
  }

  lemma QuadPadded(url: bool, input: seq<byte>)
    requires |input| >= 3 && Encoded(url, true, input[3..]) == Encoded(url, false, input[3..]) + Pads(|input[3..]|)
    ensures Encoded(url, true, input) == Encoded(url, false, input) + Pads(|input|)
  {
    var quad, rest := Quad(url, input[0], input[1], input[2]), input[3..];
    PadsRepeat(|input|);
    EncodedInQuads(url, true, input);
    EncodedInQuads(url, false, input);
    QuadComesFirst(quad, Encoded(url, false, rest), Pads(|rest|));
  }

  lemma PadsRepeat(n: nat)
    requires n >= 3
    ensures Pads(n) == Pads(n - 3)
  {
    assert n % 3 == (n - 3) % 3;
  }

  lemma EncodedInQuads(url: bool, pad: bool, input: seq<byte>)
    requires |input| >= 3
    ensures Encoded(url, pad, input) == Quad(url, input[0], input[1], input[2]) + Encoded(url, pad, input[3..])
  {
  }

  lemma QuadComesFirst(quad: seq<byte>, rest: seq<byte>, pads: seq<byte>)
    ensures quad + (rest + pads) == (quad + rest) + pads
  {
  }
}

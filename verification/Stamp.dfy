/** The printed timestamp of a log record, as RFC 3339 section 5.6 has it,
    with nine digits of fraction. */
module Stamp {

  import opened Bytes
  import opened Calendar

  // ---------------------------------------------------------------------
  // Zero-padded decimals
  // ---------------------------------------------------------------------

  const ZERO: byte := 48

  function Digits(n: nat): (d: seq<byte>)
    ensures |d| >= 1
  {
    if n < 10 then [ZERO + n] else Digits(n / 10) + [ZERO + n % 10]
  }

  function Zeros(k: nat): (z: seq<byte>)
    ensures |z| == k
  {
    seq(k, _ => ZERO)
  }

  /** A number printed with at least the given number of digits. */
  function Padded(n: nat, width: nat): seq<byte> {
    var d := Digits(n);
    if |d| < width then Zeros(width - |d|) + d else d
  }

  function Pow10(w: nat): (p: nat)
    ensures p >= 1
  {
    if w == 0 then 1 else 10 * Pow10(w - 1)
  }

  predicate IsDigit(b: byte) { ZERO <= b < ZERO + 10 }

  predicate AllDigits(s: seq<byte>) { forall i :: 0 <= i < |s| ==> IsDigit(s[i]) }

  lemma {:induction false} PaddedIsDigits(n: nat, width: nat)
    ensures AllDigits(Padded(n, width))
  {
    DigitsAreDigits(n);
  }

  lemma {:induction false} DigitsAreDigits(n: nat)
    ensures AllDigits(Digits(n))
  {
    if n >= 10 { DigitsAreDigits(n / 10); }
  }

  /** One more column: the tens padded, then the units. */
  lemma {:induction false} PaddedStep(n: nat, w: nat)
    requires w >= 2
    ensures Padded(n, w) == Padded(n / 10, w - 1) + [ZERO + n % 10]
  {
    if n < 10 {
      assert Digits(n / 10) == [ZERO];
      assert Zeros(w - 1) == Zeros(w - 2) + [ZERO];
    } else {
      var d := Digits(n / 10);
      if |d| < w - 1 {
        assert Zeros(w - 1 - |d|) + (d + [ZERO + n % 10]) == (Zeros(w - 1 - |d|) + d) + [ZERO + n % 10];
      }
    }
  }

  lemma {:induction false} PaddedLength(n: nat, w: nat)
    requires w >= 1
    ensures |Padded(n, w)| >= w
    ensures |Padded(n, w)| == w <==> n < Pow10(w)
  {
    if w == 1 {
      assert Pow10(1) == 10 * Pow10(0);
    } else {
      PaddedStep(n, w);
      PaddedLength(n / 10, w - 1);
    }
  }

  /** Padded numbers of one width compare as the numbers do. */
  lemma {:induction false} PaddedOrder(a: nat, b: nat, w: nat)
    requires w >= 1 && a < Pow10(w) && b < Pow10(w)
    ensures |Padded(a, w)| == |Padded(b, w)| == w
    ensures LexLess(Padded(a, w), Padded(b, w)) <==> a < b
    ensures Padded(a, w) == Padded(b, w) <==> a == b
  {
    PaddedLength(a, w);
    PaddedLength(b, w);
    if w == 1 {
      assert Pow10(1) == 10 * Pow10(0);
    } else {
      PaddedStep(a, w);
      PaddedStep(b, w);
      PaddedOrder(a / 10, b / 10, w - 1);
      LexByField(Padded(a / 10, w - 1), [ZERO + a % 10], Padded(b / 10, w - 1), [ZERO + b % 10]);
      SameLastByte(Padded(a / 10, w - 1), ZERO + a % 10, Padded(b / 10, w - 1), ZERO + b % 10);
    }
  }

  lemma {:induction false} SameLastByte(s: seq<byte>, x: byte, t: seq<byte>, y: byte)
    ensures s + [x] == t + [y] <==> s == t && x == y
    ensures LexLess([x], [y]) <==> x < y
  {
    if s + [x] == t + [y] {
      assert (s + [x])[..|s|] == s && (t + [y])[..|t|] == t;
    }
  }

  // ---------------------------------------------------------------------
  // Rows of padded fields, each closed by a mark
  // ---------------------------------------------------------------------

  datatype Field = Field(value: nat, width: nat, mark: byte)

  function Printed(fs: seq<Field>): seq<byte> {
    if fs == [] then [] else Padded(fs[0].value, fs[0].width) + ([fs[0].mark] + Printed(fs[1..]))
  }

  predicate Fits(f: Field) { f.width >= 1 && f.value < Pow10(f.width) }

  predicate AllFit(fs: seq<Field>) { forall i :: 0 <= i < |fs| ==> Fits(fs[i]) }

  predicate SameShape(fs: seq<Field>, gs: seq<Field>) {
    && |fs| == |gs|
    && forall i :: 0 <= i < |fs| ==> fs[i].width == gs[i].width && fs[i].mark == gs[i].mark
  }

  predicate RowLess(fs: seq<Field>, gs: seq<Field>)
    requires |fs| == |gs|
  {
    fs != [] && (fs[0].value < gs[0].value || (fs[0].value == gs[0].value && RowLess(fs[1..], gs[1..])))
  }

  function RowLength(fs: seq<Field>): nat {
    if fs == [] then 0 else fs[0].width + 1 + RowLength(fs[1..])
  }

  /** A row has its nominal length exactly when every number fits its field. */
  lemma {:induction false} RowLengthIsExact(fs: seq<Field>)
    requires forall i :: 0 <= i < |fs| ==> fs[i].width >= 1
    ensures |Printed(fs)| >= RowLength(fs)
    ensures |Printed(fs)| == RowLength(fs) <==> AllFit(fs)
  {
    if fs != [] {
      PaddedLength(fs[0].value, fs[0].width);
      RowLengthIsExact(fs[1..]);
      assert AllFit(fs) <==> Fits(fs[0]) && AllFit(fs[1..]) by {
        assert fs == [fs[0]] + fs[1..];
      }
    }
  }

  /** Rows of one shape compare, byte by byte, as their numbers do. */
  lemma {:induction false} RowOrder(fs: seq<Field>, gs: seq<Field>)
    requires SameShape(fs, gs) && AllFit(fs) && AllFit(gs)
    ensures LexLess(Printed(fs), Printed(gs)) <==> RowLess(fs, gs)
  {
    if fs != [] {
      var f, g := fs[0], gs[0];
      PaddedOrder(f.value, g.value, f.width);
      LexByField(Padded(f.value, f.width), [f.mark] + Printed(fs[1..]), Padded(g.value, g.width), [g.mark] + Printed(gs[1..]));
      LexByField([f.mark], Printed(fs[1..]), [g.mark], Printed(gs[1..]));
      SameLastByte([], f.mark, [], g.mark);
      RowOrder(fs[1..], gs[1..]);
    }
  }

  lemma {:induction false} RowLessStep(f: Field, fs: seq<Field>, g: Field, gs: seq<Field>)
    requires |fs| == |gs|
    ensures RowLess([f] + fs, [g] + gs) <==> f.value < g.value || (f.value == g.value && RowLess(fs, gs))
  {
    assert ([f] + fs)[1..] == fs && ([g] + gs)[1..] == gs;
  }

  lemma {:induction false} RowBytes(fs: seq<Field>, b: byte)
    requires b in Printed(fs)
    ensures IsDigit(b) || exists i :: 0 <= i < |fs| && b == fs[i].mark
  {
    if fs != [] {
      PaddedIsDigits(fs[0].value, fs[0].width);
      var k :| 0 <= k < |Printed(fs)| && Printed(fs)[k] == b;
      var n := |Padded(fs[0].value, fs[0].width)|;
      if k > n {
        assert b == Printed(fs[1..])[k - n - 1];
        RowBytes(fs[1..], b);
        if !IsDigit(b) {
          var i :| 0 <= i < |fs[1..]| && b == fs[1..][i].mark;
          assert b == fs[i + 1].mark;
        }
      }
    }
  }

  // ---------------------------------------------------------------------
  // The stamp
  // ---------------------------------------------------------------------

  const DASH: byte := 45
  const DOT: byte := 46
  const COLON: byte := 58
  const TEE: byte := 84
  const ZED: byte := 90

  const NANOS: nat := 1_000_000_000

  function DateFields(c: Civil, tail: seq<Field>): seq<Field> {
    [Field(c.year, 4, DASH)] + ([Field(c.month, 2, DASH)] + ([Field(c.day, 2, TEE)] + tail))
  }

  function ClockFields(c: Civil, nanos: nat): seq<Field> {
    [Field(c.hour, 2, COLON)] + ([Field(c.minute, 2, COLON)] + ([Field(c.second, 2, DOT)] + ([Field(nanos, 9, ZED)] + [])))
  }

  /** The stamp of `cri_log_line`: year, month and day, hour, minute and
      second, nanoseconds, for the clock reading it takes. */
  function StampAt(secs: nat, nanos: nat): seq<byte>
    requires secs < U64
  {
    Printed(StampFields(EpochToCivil(secs), nanos))
  }

  function StampFields(c: Civil, nanos: nat): seq<Field> { DateFields(c, ClockFields(c, nanos)) }

  lemma StampShape(c: Civil, nanos: nat)
    ensures var f := StampFields(c, nanos);
      && |f| == 7
      && f[0] == Field(c.year, 4, DASH) && f[1] == Field(c.month, 2, DASH) && f[2] == Field(c.day, 2, TEE)
      && f[3] == Field(c.hour, 2, COLON) && f[4] == Field(c.minute, 2, COLON) && f[5] == Field(c.second, 2, DOT)
      && f[6] == Field(nanos, 9, ZED)
  {
  }

  lemma {:induction false} Powers()
    ensures Pow10(2) == 100 && Pow10(4) == 10_000 && Pow10(9) == NANOS
  {
    assert Pow10(2) == 100;
    assert Pow10(4) == 100 * Pow10(2);
    assert Pow10(6) == 100 * Pow10(4);
    assert Pow10(8) == 100 * Pow10(6);
  }

  lemma {:induction false} StampFits(c: Civil, nanos: nat)
    requires Calendar.Valid(c) && nanos < NANOS
    ensures AllFit(StampFields(c, nanos)) <==> c.year < 10_000
  {
    StampShape(c, nanos);
    Powers();
    assert Fits(StampFields(c, nanos)[0]) <==> c.year < 10_000;
  }

  lemma {:induction false} StampRowLength(c: Civil, nanos: nat)
    ensures RowLength(StampFields(c, nanos)) == 30
  {
    RowLengthStep(Field(nanos, 9, ZED), []);
    RowLengthStep(Field(c.second, 2, DOT), [Field(nanos, 9, ZED)] + []);
    var clock := ClockFields(c, nanos);
    assert clock == [clock[0]] + ([clock[1]] + ([clock[2]] + ([clock[3]] + [])));
    RowLengthStep(clock[1], [clock[2]] + ([clock[3]] + []));
    RowLengthStep(clock[0], [clock[1]] + ([clock[2]] + ([clock[3]] + [])));
    RowLengthStep(Field(c.day, 2, TEE), clock);
    RowLengthStep(Field(c.month, 2, DASH), [Field(c.day, 2, TEE)] + clock);
    RowLengthStep(Field(c.year, 4, DASH), [Field(c.month, 2, DASH)] + ([Field(c.day, 2, TEE)] + clock));
  }

  lemma RowLengthStep(f: Field, fs: seq<Field>)
    ensures RowLength([f] + fs) == f.width + 1 + RowLength(fs)
  {
    assert ([f] + fs)[1..] == fs;
  }

  /** The first second of the year 10000. */
  const YEAR_10000: nat := 253_402_300_800

  lemma {:induction false} FourDigitYears(secs: nat)
    requires secs < YEAR_LIMIT && secs < U64
    ensures EpochToCivil(secs).year < 10_000 <==> secs < YEAR_10000
  {
    ConversionIsCorrect(secs);
    Year10000Starts();
    YearByInstant(EpochToCivil(secs), secs);
  }

  lemma {:induction false} Year10000Starts()
    ensures IsSecond(Civil(10_000, 1, 1, 0, 0, 0), YEAR_10000)
  {
    YearsInClosedForm(10_000);
  }

  lemma {:induction false} YearByInstant(c: Civil, secs: nat)
    requires IsSecond(c, secs) && IsSecond(Civil(10_000, 1, 1, 0, 0, 0), YEAR_10000)
    ensures c.year < 10_000 <==> secs < YEAR_10000
  {
    CivilOrderIsTimeOrder(c, Civil(10_000, 1, 1, 0, 0, 0));
  }

  /** The stamp is 30 characters long exactly before the year 10000. */
  lemma {:induction false} StampLength(secs: nat, nanos: nat)
    requires secs < YEAR_LIMIT && secs < U64 && nanos < NANOS
    ensures |StampAt(secs, nanos)| == 30 <==> secs < YEAR_10000
  {
    var c := EpochToCivil(secs);
    ConversionIsCorrect(secs);
    FourDigitYears(secs);
    StampShape(c, nanos);
    StampFits(c, nanos);
    StampRowLength(c, nanos);
    RowLengthIsExact(StampFields(c, nanos));
  }

  lemma {:induction false} StampRowOrder(a: Civil, m: nat, b: Civil, n: nat)
    ensures RowLess(StampFields(a, m), StampFields(b, n)) <==> CivilLess(a, b) || (a == b && m < n)
  {
    var p, q := ClockFields(a, m), ClockFields(b, n);
    RowLessStep(Field(a.year, 4, DASH), [Field(a.month, 2, DASH)] + ([Field(a.day, 2, TEE)] + p),
                Field(b.year, 4, DASH), [Field(b.month, 2, DASH)] + ([Field(b.day, 2, TEE)] + q));
    RowLessStep(Field(a.month, 2, DASH), [Field(a.day, 2, TEE)] + p, Field(b.month, 2, DASH), [Field(b.day, 2, TEE)] + q);
    RowLessStep(Field(a.day, 2, TEE), p, Field(b.day, 2, TEE), q);
    ClockRowOrder(a, m, b, n);
  }

  lemma {:induction false} ClockRowOrder(a: Civil, m: nat, b: Civil, n: nat)
    ensures RowLess(ClockFields(a, m), ClockFields(b, n)) <==>
      || a.hour < b.hour
      || (a.hour == b.hour && (a.minute < b.minute || (a.minute == b.minute &&
          (a.second < b.second || (a.second == b.second && m < n)))))
  {
    var p, q := [Field(m, 9, ZED)] + [], [Field(n, 9, ZED)] + [];
    RowLessStep(Field(a.hour, 2, COLON), [Field(a.minute, 2, COLON)] + ([Field(a.second, 2, DOT)] + p),
                Field(b.hour, 2, COLON), [Field(b.minute, 2, COLON)] + ([Field(b.second, 2, DOT)] + q));
    RowLessStep(Field(a.minute, 2, COLON), [Field(a.second, 2, DOT)] + p, Field(b.minute, 2, COLON), [Field(b.second, 2, DOT)] + q);
    RowLessStep(Field(a.second, 2, DOT), p, Field(b.second, 2, DOT), q);
    RowLessStep(Field(m, 9, ZED), [], Field(n, 9, ZED), []);
  }

  /** Valid readings of four-digit years print in the order of their fields. */
  lemma {:induction false} PrintedOrder(a: Civil, m: nat, b: Civil, n: nat)
    requires Calendar.Valid(a) && Calendar.Valid(b) && a.year < 10_000 && b.year < 10_000
    requires m < NANOS && n < NANOS
    ensures LexLess(Printed(StampFields(a, m)), Printed(StampFields(b, n))) <==> CivilLess(a, b) || (a == b && m < n)
  {
    StampShape(a, m);
    StampShape(b, n);
    StampFits(a, m);
    StampFits(b, n);
    RowOrder(StampFields(a, m), StampFields(b, n));
    StampRowOrder(a, m, b, n);
  }

  /** The readings of two instants have the order of the instants. */
  lemma {:induction false} ReadingOrder(a: Civil, s: nat, b: Civil, t: nat)
    requires IsSecond(a, s) && IsSecond(b, t)
    ensures CivilLess(a, b) <==> s < t
    ensures s != t ==> a != b
  {
    CivilOrderIsTimeOrder(a, b);
  }

  /** Before the year 10000, stamps sort as strings exactly as the instants
      they print sort in time. */
  lemma {:induction false} StampOrderIsTimeOrder(s: nat, m: nat, t: nat, n: nat)
    requires s < YEAR_10000 && t < YEAR_10000 && m < NANOS && n < NANOS
    ensures LexLess(StampAt(s, m), StampAt(t, n)) <==> s < t || (s == t && m < n)
  {
    ConversionIsCorrect(s);
    ConversionIsCorrect(t);
    FourDigitYears(s);
    FourDigitYears(t);
    PrintedOrder(EpochToCivil(s), m, EpochToCivil(t), n);
    ReadingOrder(EpochToCivil(s), s, EpochToCivil(t), t);
  }

  // ---------------------------------------------------------------------
  // Reading a stamp
  // ---------------------------------------------------------------------

  /** The number that decimal digits stand for. */
  function DecimalValue(d: seq<byte>): int {
    if d == [] then 0
    else
      var units: int := d[|d| - 1];
      10 * DecimalValue(d[..|d| - 1]) + (units - 48)
  }

  lemma DecimalStep(d: seq<byte>, b: byte)
    ensures DecimalValue(d + [b]) == 10 * DecimalValue(d) + (b as int - 48)
  {
    assert (d + [b])[..|d|] == d;
  }

  lemma {:induction false} DigitsHaveValue(n: nat)
    ensures DecimalValue(Digits(n)) == n
  {
    if n >= 10 {
      DigitsHaveValue(n / 10);
      DecimalStep(Digits(n / 10), ZERO + n % 10);
    } else {
      DecimalStep([], ZERO + n);
      assert [] + [ZERO + n] == Digits(n);
    }
  }

  lemma {:induction false} ZerosCountNothing(k: nat, d: seq<byte>)
    ensures DecimalValue(Zeros(k) + d) == DecimalValue(d)
    decreases k + |d|
  {
    if d == [] {
      assert Zeros(k) + d == Zeros(k);
      if k > 0 {
        assert Zeros(k) == Zeros(k - 1) + [ZERO] && Zeros(k - 1) + [] == Zeros(k - 1);
        ZerosCountNothing(k - 1, []);
        DecimalStep(Zeros(k - 1), ZERO);
      }
    } else {
      var front, b := d[..|d| - 1], d[|d| - 1];
      ZerosCountNothing(k, front);
      assert Zeros(k) + d == (Zeros(k) + front) + [b] && d == front + [b];
      DecimalStep(Zeros(k) + front, b);
    }
  }

  lemma {:induction false} PaddedHasValue(n: nat, w: nat)
    ensures DecimalValue(Padded(n, w)) == n
  {
    DigitsHaveValue(n);
    if |Digits(n)| < w { ZerosCountNothing(w - |Digits(n)|, Digits(n)); }
  }

  /** The field at a position of the text: its digits, then its mark. */
  predicate FieldAt(s: seq<byte>, at: nat, width: nat, value: nat, mark: byte) {
    && at + width < |s| && s[at + width] == mark
    && AllDigits(s[at..at + width]) && DecimalValue(s[at..at + width]) == value
  }

  lemma {:induction false} FirstField(s: seq<byte>, at: nat, f: Field, rest: seq<Field>)
    requires f.width >= 1 && f.value < Pow10(f.width) && at <= |s| && s[at..] == Printed([f] + rest)
    ensures FieldAt(s, at, f.width, f.value, f.mark)
    ensures at + f.width + 1 <= |s| && s[at + f.width + 1..] == Printed(rest)
  {
    var d := Padded(f.value, f.width);
    PaddedLength(f.value, f.width);
    PaddedIsDigits(f.value, f.width);
    PaddedHasValue(f.value, f.width);
    assert ([f] + rest)[1..] == rest;
    assert s[at..] == d + ([f.mark] + Printed(rest));
    assert s[at..at + f.width] == s[at..][..f.width] == d;
    assert s[at + f.width] == s[at..][f.width] == f.mark;
    assert s[at + f.width + 1..] == s[at..][f.width + 1..] == Printed(rest);
  }

  /** Year, month and day of a stamp. */
  predicate DateAt(s: seq<byte>, c: Civil) {
    FieldAt(s, 0, 4, c.year, 45) && FieldAt(s, 5, 2, c.month, 45) && FieldAt(s, 8, 2, c.day, 84)
  }

  /** Its hour, minute, second and nanoseconds. */
  predicate ClockAt(s: seq<byte>, c: Civil, nanos: nat) {
    && FieldAt(s, 11, 2, c.hour, 58) && FieldAt(s, 14, 2, c.minute, 58)
    && FieldAt(s, 17, 2, c.second, 46) && FieldAt(s, 20, 9, nanos, 90)
  }

  /** Before the year 10000 a stamp reads, in RFC 3339 with nine digits of
      fraction, as the instant it was made for. */
  lemma {:induction false} StampReadsBack(secs: nat, nanos: nat) returns (c: Civil)
    requires secs < YEAR_10000 && nanos < 1_000_000_000
    ensures IsSecond(c, secs)
    ensures var s := StampAt(secs, nanos); |s| == 30 && DateAt(s, c) && ClockAt(s, c, nanos)
  {
    c := EpochToCivil(secs);
    ConversionIsCorrect(secs);
    FourDigitYears(secs);
    StampLength(secs, nanos);
    PrintedReadsBack(StampAt(secs, nanos), c, nanos);
  }

  lemma {:induction false} PrintedReadsBack(s: seq<byte>, c: Civil, nanos: nat)
    requires |s| == 30 && s == Printed(StampFields(c, nanos))
    requires Calendar.Valid(c) && c.year < 10_000 && nanos < NANOS
    ensures DateAt(s, c) && ClockAt(s, c, nanos)
  {
    Powers();
    var clock := ClockFields(c, nanos);
    assert s[0..] == s;
    FirstField(s, 0, Field(c.year, 4, DASH), [Field(c.month, 2, DASH)] + ([Field(c.day, 2, TEE)] + clock));
    FirstField(s, 5, Field(c.month, 2, DASH), [Field(c.day, 2, TEE)] + clock);
    FirstField(s, 8, Field(c.day, 2, TEE), clock);
    ClockReadsBack(s, c, nanos);
  }

  lemma {:induction false} ClockReadsBack(s: seq<byte>, c: Civil, nanos: nat)
    requires |s| == 30 && s[11..] == Printed(ClockFields(c, nanos)) && Calendar.Valid(c) && nanos < NANOS
    ensures ClockAt(s, c, nanos)
  {
    Powers();
    var last := [Field(nanos, 9, ZED)] + [];
    FirstField(s, 11, Field(c.hour, 2, COLON), [Field(c.minute, 2, COLON)] + ([Field(c.second, 2, DOT)] + last));
    FirstField(s, 14, Field(c.minute, 2, COLON), [Field(c.second, 2, DOT)] + last);
    FirstField(s, 17, Field(c.second, 2, DOT), last);
    FirstField(s, 20, Field(nanos, 9, ZED), []);
  }

  /** All instants before the limit sort as strings as they do in time. */
  ghost predicate StampsSortBefore(limit: nat)
    requires limit <= U64
  {
    forall s: nat, m: nat, t: nat, n: nat | s < limit && t < limit && m < NANOS && n < NANOS ::
      LexLess(StampAt(s, m), StampAt(t, n)) <==> s < t || (s == t && m < n)
  }

  /** The stamps of a span of time from the epoch sort as its instants exactly
      when the span ends before the year 10000. */
  lemma {:induction false} StampsSortExactlyBeforeYear10000(limit: nat)
    requires limit <= U64
    ensures StampsSortBefore(limit) <==> limit <= YEAR_10000
  {
    if limit <= YEAR_10000 {
      forall s: nat, m: nat, t: nat, n: nat | s < limit && t < limit && m < NANOS && n < NANOS
        ensures LexLess(StampAt(s, m), StampAt(t, n)) <==> s < t || (s == t && m < n)
      {
        StampOrderIsTimeOrder(s, m, t, n);
      }
    } else {
      OrderBreaksAtYear10000();
      var s, t := YEAR_10000, YEAR_10000 - 1;
      assert LexLess(StampAt(s, 0), StampAt(t, 0)) && !(s < t || (s == t && 0 < 0));
    }
  }

  /** The order is lost when the year takes a fifth digit. */
  lemma {:induction false} OrderBreaksAtYear10000()
    ensures LexLess(StampAt(YEAR_10000, 0), StampAt(YEAR_10000 - 1, 0))
  {
    var a, b := EpochToCivil(YEAR_10000), EpochToCivil(YEAR_10000 - 1);
    ConversionIsCorrect(YEAR_10000);
    ConversionIsCorrect(YEAR_10000 - 1);
    Year10000Starts();
    CivilAt(a, Civil(10_000, 1, 1, 0, 0, 0));
    YearEnd(b);
    EarlierByYear(a, b);
  }

  lemma {:induction false} EarlierByYear(a: Civil, b: Civil)
    requires a.year == 10_000 && b.year == 9_999
    ensures LexLess(Printed(StampFields(a, 0)), Printed(StampFields(b, 0)))
  {
    FirstDigit(10_000, 1);
    FirstDigit(9_999, 9);
    FirstByte(a, 0);
    FirstByte(b, 0);
  }

  /** The year of a stamp with the dash that closes it. */
  function YearText(c: Civil): seq<byte> { Padded(c.year, 4) + [DASH] }

  function YearDigits(c: Civil): nat { |Padded(c.year, 4)| }

  /** A number takes the columns it needs, or four. */
  lemma {:induction false} PaddedToItsLength(n: nat, w: nat)
    requires w == |Padded(n, 4)|
    ensures w >= 1 && Padded(n, w) == Padded(n, 4) && n < Pow10(w)
  {
    PaddedLength(n, 4);
    PaddedLength(n, w);
  }

  lemma {:induction false} StampAfterYear(c: Civil, nanos: nat)
    ensures var rest := StampFields(c, nanos)[1..];
      && Printed(StampFields(c, nanos)) == Padded(c.year, 4) + ([DASH] + Printed(rest))
      && Printed(StampFields(c, nanos)) == YearText(c) + Printed(rest)
  {
    StampShape(c, nanos);
    var f := StampFields(c, nanos);
    assert Padded(c.year, 4) + ([DASH] + Printed(f[1..])) == YearText(c) + Printed(f[1..]);
  }

  lemma {:induction false} RestFits(c: Civil, nanos: nat)
    requires Calendar.Valid(c) && nanos < NANOS
    ensures AllFit(StampFields(c, nanos)[1..])
  {
    StampShape(c, nanos);
    Powers();
  }

  /** Two years of equally many digits: the stamps sort as the instants do. */
  lemma {:induction false} SameDigitsSortAsTime(a: Civil, m: nat, b: Civil, n: nat)
    requires Calendar.Valid(a) && Calendar.Valid(b) && m < NANOS && n < NANOS && YearDigits(a) == YearDigits(b)
    ensures LexLess(Printed(StampFields(a, m)), Printed(StampFields(b, n))) <==> CivilLess(a, b) || (a == b && m < n)
  {
    var w := YearDigits(a);
    var f, g := StampFields(a, m), StampFields(b, n);
    var p, q := Printed(f[1..]), Printed(g[1..]);
    StampShape(a, m);
    StampShape(b, n);
    StampAfterYear(a, m);
    StampAfterYear(b, n);
    RestFits(a, m);
    RestFits(b, n);
    PaddedToItsLength(a.year, w);
    PaddedToItsLength(b.year, w);
    PaddedOrder(a.year, b.year, w);
    LexByField(Padded(a.year, 4), [DASH] + p, Padded(b.year, 4), [DASH] + q);
    LexByField([DASH], p, [DASH], q);
    SameLastByte([], DASH, [], DASH);
    RowOrder(f[1..], g[1..]);
    StampRowOrder(a, m, b, n);
  }

  /** Two years of different length: the years decide. */
  lemma {:induction false} YearsDecide(a: Civil, m: nat, b: Civil, n: nat)
    requires YearDigits(a) != YearDigits(b)
    ensures LexLess(Printed(StampFields(a, m)), Printed(StampFields(b, n))) <==> LexLess(YearText(a), YearText(b))
  {
    StampAfterYear(a, m);
    StampAfterYear(b, n);
    YearTextsDiverge(a, b);
    LexByDifference(YearText(a), Printed(StampFields(a, m)[1..]), YearText(b), Printed(StampFields(b, n)[1..]));
  }

  lemma {:induction false} YearTextsDiverge(a: Civil, b: Civil)
    requires YearDigits(a) != YearDigits(b)
    ensures Diverge(YearText(a), YearText(b))
  {
    PaddedIsDigits(a.year, 4);
    PaddedIsDigits(b.year, 4);
    var i := if YearDigits(a) < YearDigits(b) then YearDigits(a) else YearDigits(b);
    assert YearText(a)[i] != YearText(b)[i];
  }

  /** Of two instants the earlier one gets the smaller stamp exactly when their
      years have equally many digits, or the year of the earlier one happens
      to be the smaller string. */
  lemma {:induction false} StampsSortExactlyByYears(s: nat, m: nat, t: nat, n: nat)
    requires s < YEAR_LIMIT && t < YEAR_LIMIT && s < U64 && t < U64 && m < NANOS && n < NANOS
    requires s < t || (s == t && m < n)
    ensures var a, b := EpochToCivil(s), EpochToCivil(t);
      LexLess(StampAt(s, m), StampAt(t, n)) <==> YearDigits(a) == YearDigits(b) || LexLess(YearText(a), YearText(b))
  {
    var a, b := EpochToCivil(s), EpochToCivil(t);
    ConversionIsCorrect(s);
    ConversionIsCorrect(t);
    CivilOrderIsTimeOrder(a, b);
    if YearDigits(a) == YearDigits(b) {
      SameDigitsSortAsTime(a, m, b, n);
    } else {
      YearsDecide(a, m, b, n);
    }
  }

  lemma {:induction false} CivilAt(a: Civil, b: Civil)
    requires Calendar.Valid(a) && Calendar.Valid(b) && EpochSecond(a) == EpochSecond(b)
    ensures a == b
  {
    CivilOrderIsTimeOrder(a, b);
    CivilOrderIsTimeOrder(b, a);
  }

  lemma {:induction false} YearEnd(c: Civil)
    requires IsSecond(c, YEAR_10000 - 1)
    ensures c.year == 9_999
  {
    YearsInClosedForm(9_999);
    Year10000Starts();
    YearByInstant(c, YEAR_10000 - 1);
    CivilOrderIsTimeOrder(c, Civil(9_999, 1, 1, 0, 0, 0));
  }

  lemma {:induction false} FirstDigit(year: nat, d: nat)
    requires (d < 10 && 1000 * d <= year < 1000 * d + 1000) || (year == 10_000 && d == 1)
    requires d >= 1
    ensures |Padded(year, 4)| >= 1 && Padded(year, 4)[0] == ZERO + d
  {
    assert Digits(year / 1000) == if year == 10_000 then Digits(1) + [ZERO] else [ZERO + d];
    assert Digits(year / 100) == Digits(year / 1000) + [ZERO + year / 100 % 10];
    assert Digits(year / 10) == Digits(year / 100) + [ZERO + year / 10 % 10];
    assert Digits(year) == Digits(year / 10) + [ZERO + year % 10];
  }

  lemma {:induction false} FirstByte(c: Civil, nanos: nat)
    ensures var f := Printed(StampFields(c, nanos)); |f| >= 1 && f[0] == Padded(c.year, 4)[0]
  {
    StampShape(c, nanos);
    PaddedLength(c.year, 4);
  }

  const SPACE: byte := 32
  const NEWLINE: byte := 10

  /** A stamp holds no separator of the log format. */
  lemma {:induction false} StampIsOneWord(secs: nat, nanos: nat)
    requires secs < U64
    ensures SPACE !in StampAt(secs, nanos) && NEWLINE !in StampAt(secs, nanos)
  {
    var c := EpochToCivil(secs);
    StampShape(c, nanos);
    if SPACE in StampAt(secs, nanos) { RowBytes(StampFields(c, nanos), SPACE); }
    if NEWLINE in StampAt(secs, nanos) { RowBytes(StampFields(c, nanos), NEWLINE); }
  }
}

/**
 * Go's `time.Parse` for the three layouts the clients use:
 *
 *   "2006-01-02 15:04:05 -0700"   (Elemental Conductor timestamps)
 *   "2006-01-02T15:04:05-07:00"   (Elemental Conductor job-error timestamps)
 *   "2006-01-02T15:04:05.999Z"    (Hybrik token expiration)
 *
 * Each layout element is one small scanner with Go's own acceptance rules:
 * "2006" takes exactly four digits, "01", "02", "04" and "05" exactly two,
 * "15" one or two; a space in the layout takes a run of spaces; a fraction
 * of a second (a '.' or ',' and digits) may follow the seconds; the numeric
 * zones take a sign and two-digit hours and minutes. Every failure is the
 * same `None`: the wording of Go's parse errors is not modelled.
 */
module TimeLayouts {
  import opened Wrappers
  import opened Calendar

  /** A scanned number and the text after it. */
  datatype Scan = Scan(value: int, rest: string)

  predicate IsDigit(c: char)
  {
    '0' <= c <= '9'
  }

  function DigitValue(c: char): (d: int)
    requires IsDigit(c)
    ensures 0 <= d <= 9
  {
    c as int - '0' as int
  }

  function DigitChar(d: int): (c: char)
    requires 0 <= d <= 9
    ensures IsDigit(c) && DigitValue(c) == d
  {
    ('0' as int + d) as char
  }

  /** Go's `getnum(v, true)`: exactly two digits. */
  function Fixed2(v: string): (r: Option<Scan>)
    ensures r.Some? <==> |v| >= 2 && IsDigit(v[0]) && IsDigit(v[1])
    ensures r.Some? ==> 0 <= r.value.value <= 99 && r.value.rest == v[2..]
  {
    if |v| >= 2 && IsDigit(v[0]) && IsDigit(v[1]) then
      Some(Scan(10 * DigitValue(v[0]) + DigitValue(v[1]), v[2..]))
    else None
  }

  /** Go's `getnum(v, false)`: one digit, or two when a second one follows. */
  function OneOrTwo(v: string): (r: Option<Scan>)
    ensures r.Some? <==> |v| >= 1 && IsDigit(v[0])
    ensures r.Some? ==> 0 <= r.value.value <= 99 && |r.value.rest| < |v|
  {
    if |v| == 0 || !IsDigit(v[0]) then None
    else if |v| < 2 || !IsDigit(v[1]) then Some(Scan(DigitValue(v[0]), v[1..]))
    else Some(Scan(10 * DigitValue(v[0]) + DigitValue(v[1]), v[2..]))
  }

  /** The "2006" element: four digits. */
  function Year(v: string): (r: Option<Scan>)
    ensures r.Some? <==> |v| >= 4 && IsDigit(v[0]) && IsDigit(v[1]) && IsDigit(v[2]) && IsDigit(v[3])
    ensures r.Some? ==> 0 <= r.value.value <= 9999 && r.value.rest == v[4..]
  {
    if |v| >= 4 && IsDigit(v[0]) && IsDigit(v[1]) && IsDigit(v[2]) && IsDigit(v[3]) then
      Some(Scan(1000 * DigitValue(v[0]) + 100 * DigitValue(v[1]) + 10 * DigitValue(v[2]) + DigitValue(v[3]), v[4..]))
    else None
  }

  /** A literal layout character other than a space. */
  function Expect(v: string, c: char): (r: Option<string>)
    ensures r.Some? <==> |v| >= 1 && v[0] == c
    ensures r.Some? ==> r.value == v[1..]
  {
    if |v| >= 1 && v[0] == c then Some(v[1..]) else None
  }

  /** `v` without its leading spaces. */
  function TrimSpaces(v: string): (r: string)
    ensures |r| <= |v| && r == v[|v| - |r|..]
    ensures |r| == 0 || r[0] != ' '
    ensures forall i :: 0 <= i < |v| - |r| ==> v[i] == ' '
  {
    if |v| > 0 && v[0] == ' ' then TrimSpaces(v[1..]) else v
  }

  /**
   * A space in the layout (Go's `skip`): the value must not go on with
   * anything but a space, and all its leading spaces are dropped.
   */
  function Blank(v: string): (r: Option<string>)
    ensures r.Some? <==> |v| == 0 || v[0] == ' '
    ensures r.Some? ==> r.value == TrimSpaces(v)
  {
    if |v| > 0 && v[0] != ' ' then None else Some(TrimSpaces(v))
  }

  /** How many digits `v` starts with. */
  function LeadingDigits(v: string): (n: nat)
    ensures n <= |v|
    ensures forall i :: 0 <= i < n ==> IsDigit(v[i])
    ensures n < |v| ==> !IsDigit(v[n])
  {
    if |v| > 0 && IsDigit(v[0]) then 1 + LeadingDigits(v[1..]) else 0
  }

  /** The number the digits `ds` spell. */
  function DigitsValue(ds: string): (n: int)
    requires forall i :: 0 <= i < |ds| ==> IsDigit(ds[i])
    ensures 0 <= n < Pow10(|ds|)
  {
    if |ds| == 0 then 0
    else 10 * DigitsValue(ds[..|ds| - 1]) + DigitValue(ds[|ds| - 1])
  }

  function Pow10(k: nat): (p: int)
    ensures p >= 1
  {
    if k == 0 then 1 else 10 * Pow10(k - 1)
  }

  function Min(a: int, b: int): int
  {
    if a < b then a else b
  }

  predicate IsCommaOrPeriod(c: char)
  {
    c == '.' || c == ','
  }

  /**
   * An optional fraction of a second after the seconds: a '.' or ',' and at
   * least one digit. Every digit is consumed; the first nine give the
   * nanoseconds (Go's `parseNanoseconds`). Without one, nothing is consumed.
   */
  function Fraction(v: string): (r: Scan)
    ensures 0 <= r.value < NanosPerSecond
    ensures !(|v| >= 2 && IsCommaOrPeriod(v[0]) && IsDigit(v[1])) ==> r == Scan(0, v)
    ensures |r.rest| <= |v| && r.rest == v[|v| - |r.rest|..]
  {
    if |v| >= 2 && IsCommaOrPeriod(v[0]) && IsDigit(v[1]) then
      var n := LeadingDigits(v[1..]);
      var k := Min(n, 9);
      Pow10Mono(k, 9);
      var scale := Pow10(9 - k);
      ScaleBound(DigitsValue(v[1..1 + k]), k);
      Scan(DigitsValue(v[1..1 + k]) * scale, v[1 + n..])
    else Scan(0, v)
  }

  lemma Pow10Mono(a: nat, b: nat)
    requires a <= b
    ensures Pow10(a) <= Pow10(b)
    decreases b
  {
    if a < b {
      Pow10Mono(a, b - 1);
    }
  }

  lemma {:induction false} Pow10Add(a: nat, b: nat)
    ensures Pow10(a) * Pow10(b) == Pow10(a + b)
    decreases a
  {
    if a > 0 {
      Pow10Add(a - 1, b);
    }
  }

  /** Digits of a fraction, scaled to nine places, stay below a second. */
  lemma ScaleBound(x: int, k: nat)
    requires k <= 9 && 0 <= x < Pow10(k)
    ensures 0 <= x * Pow10(9 - k) < NanosPerSecond
  {
    var p, q := Pow10(9 - k), Pow10(k);
    Pow10Add(k, 9 - k);
    assert q * p == NanosPerSecond;
    MulStrict(x, q, p);
  }

  lemma MulStrict(x: int, q: int, p: int)
    requires 0 <= x < q && p >= 1
    ensures 0 <= x * p < q * p
  {
  }

  /** A zone offset in seconds from its sign character, hours and minutes. */
  function SignedOffset(sign: char, hr: int, mm: int): (r: Option<int>)
    ensures r.Some? <==> (sign == '+' || sign == '-') && hr <= 24 && mm <= 60
    ensures r.Some? && sign == '+' ==> r.value == hr * 3600 + mm * 60
    ensures r.Some? && sign == '-' ==> r.value == -(hr * 3600 + mm * 60)
  {
    if hr > 24 || mm > 60 then None
    else if sign == '+' then Some(hr * 3600 + mm * 60)
    else if sign == '-' then Some(-(hr * 3600 + mm * 60))
    else None
  }

  /** The "-0700" element: a sign, two digits of hours, two of minutes. */
  function NumZone(v: string): (r: Option<Scan>)
    ensures r.Some? ==> |v| >= 5 && r.value.rest == v[5..]
  {
    if |v| < 5 then None
    else
      var hr :- Fixed2(v[1..3]);
      var mm :- Fixed2(v[3..5]);
      var off :- SignedOffset(v[0], hr.value, mm.value);
      Some(Scan(off, v[5..]))
  }

  /** The "-07:00" element: a sign, two digits of hours, ':', two of minutes. */
  function NumColonZone(v: string): (r: Option<Scan>)
    ensures r.Some? ==> |v| >= 6 && v[3] == ':' && r.value.rest == v[6..]
  {
    if |v| < 6 || v[3] != ':' then None
    else
      var hr :- Fixed2(v[1..3]);
      var mm :- Fixed2(v[4..6]);
      var off :- SignedOffset(v[0], hr.value, mm.value);
      Some(Scan(off, v[6..]))
  }

  /** The wall-clock fields a parse collects, before their ranges are checked. */
  datatype Fields = Fields(year: int, month: int, day: int, hour: int, minute: int, second: int, nanos: int)

  function FieldsCivil(f: Fields): Civil
  {
    Civil(Date(f.year, f.month, f.day), f.hour, f.minute, f.second, f.nanos)
  }

  /** Go's range checks: month, then day against the month's length, hour, minute and second. */
  predicate InRange(f: Fields)
  {
    && 1 <= f.month <= 12
    && 1 <= f.day <= DaysIn(f.month, f.year)
    && 0 <= f.hour < 24 && 0 <= f.minute < 60 && 0 <= f.second < 60
    && 0 <= f.nanos < NanosPerSecond
  }

  /**
   * The `time.Time` for fields read in a zone `offset` seconds east of UTC,
   * or `None` when a field is out of range.
   */
  function Resolve(f: Fields, offset: int): (r: Option<Time>)
    ensures r.Some? <==> InRange(f)
    ensures r.Some? ==> ValidTime(r.value) && r.value.offset == offset
    ensures r.Some? ==> Seconds(r.value.utc) == Seconds(FieldsCivil(f)) - offset
    ensures r.Some? ==> r.value.utc.nanos == f.nanos
  {
    if InRange(f) then Some(Time(ToUTC(FieldsCivil(f), offset), offset)) else None
  }

  /** "2006-01-02" and the separator after it, then "15:04:05" and an optional fraction. */
  function DateAndClock(v: string, sep: char): (r: Option<(Fields, string)>)
  {
    var y :- Year(v);
    var a :- Expect(y.rest, '-');
    var mo :- Fixed2(a);
    var b :- Expect(mo.rest, '-');
    var d :- Fixed2(b);
    var c :- (if sep == ' ' then Blank(d.rest) else Expect(d.rest, sep));
    var h :- OneOrTwo(c);
    var e :- Expect(h.rest, ':');
    var mi :- Fixed2(e);
    var g :- Expect(mi.rest, ':');
    var s :- Fixed2(g);
    var fr := Fraction(s.rest);
    Some((Fields(y.value, mo.value, d.value, h.value, mi.value, s.value, fr.value), fr.rest))
  }

  /**
   * The layouts fix where the date's dashes and the separator after the
   * day fall, and the date and clock take at least eighteen characters.
   */
  lemma DateAndClockShape(v: string, sep: char)
    ensures DateAndClock(v, sep).Some? ==>
      && |v| >= 18 && v[4] == '-' && v[7] == '-' && v[10] == sep
      && |DateAndClock(v, sep).value.1| <= |v| - 18
  {
    if DateAndClock(v, sep).Some? {
      var y := Year(v).value;
      assert y.rest == v[4..];
      var a := Expect(y.rest, '-').value;
      var mo := Fixed2(a).value;
      assert mo.rest == v[7..];
      var b := Expect(mo.rest, '-').value;
      var d := Fixed2(b).value;
      assert d.rest == v[10..];
      var c := (if sep == ' ' then Blank(d.rest) else Expect(d.rest, sep)).value;
      assert |c| < |v| - 10;
      var h := OneOrTwo(c).value;
      var e := Expect(h.rest, ':').value;
      var mi := Fixed2(e).value;
      var g := Expect(mi.rest, ':').value;
      var s := Fixed2(g).value;
      assert |Fraction(s.rest).rest| <= |s.rest|;
    }
  }

  /** `time.Parse("2006-01-02 15:04:05 -0700", v)`. */
  function ParseConductor(v: string): (r: Option<Time>)
    ensures r.Some? ==> ValidTime(r.value)
  {
    var (f, rest) :- DateAndClock(v, ' ');
    var sp :- Blank(rest);
    var z :- NumZone(sp);
    if z.rest != "" then None else Resolve(f, z.value)
  }

  /** `time.Parse("2006-01-02T15:04:05-07:00", v)`. */
  function ParseJobError(v: string): (r: Option<Time>)
    ensures r.Some? ==> ValidTime(r.value)
  {
    var (f, rest) :- DateAndClock(v, 'T');
    var z :- NumColonZone(rest);
    if z.rest != "" then None else Resolve(f, z.value)
  }

  /** `time.Parse("2006-01-02T15:04:05.999Z", v)`: the trailing 'Z' is literal text and the result is in UTC. */
  function ParseExpiration(v: string): (r: Option<Time>)
    ensures r.Some? ==> ValidTime(r.value) && r.value.offset == 0
  {
    var (f, rest) :- DateAndClock(v, 'T');
    var z :- Expect(rest, 'Z');
    if z != "" then None else Resolve(f, 0)
  }

  // Rendering the layouts, as the inverse the parsers are checked against.

  function Pad2(n: int): (s: string)
    requires 0 <= n <= 99
    ensures |s| == 2 && IsDigit(s[0]) && IsDigit(s[1])
    ensures 10 * DigitValue(s[0]) + DigitValue(s[1]) == n
  {
    [DigitChar(n / 10), DigitChar(n % 10)]
  }

  function Pad4(n: int): (s: string)
    requires 0 <= n <= 9999
    ensures |s| == 4 && IsDigit(s[0]) && IsDigit(s[1]) && IsDigit(s[2]) && IsDigit(s[3])
    ensures 1000 * DigitValue(s[0]) + 100 * DigitValue(s[1]) + 10 * DigitValue(s[2]) + DigitValue(s[3]) == n
  {
    Digits4(n);
    [DigitChar(n / 1000), DigitChar(n / 100 % 10), DigitChar(n / 10 % 10), DigitChar(n % 10)]
  }

  lemma Digits4(n: int)
    requires 0 <= n <= 9999
    ensures 0 <= n / 1000 <= 9 && 0 <= n / 100 % 10 <= 9 && 0 <= n / 10 % 10 <= 9
    ensures 1000 * (n / 1000) + 100 * (n / 100 % 10) + 10 * (n / 10 % 10) + n % 10 == n
  {
    var a, b, c := n / 10, n / 100, n / 1000;
    assert n == 10 * a + n % 10;
    assert a == 10 * (a / 10) + a % 10;
    assert a / 10 == b;
    assert b == 10 * (b / 10) + b % 10;
    assert b / 10 == c;
  }

  /** Fields the layouts can render: a four-digit year, two digits elsewhere, whole seconds. */
  predicate Printable(f: Fields)
  {
    && 0 <= f.year <= 9999 && 0 <= f.month <= 99 && 0 <= f.day <= 99
    && 0 <= f.hour <= 99 && 0 <= f.minute <= 99 && 0 <= f.second <= 99 && f.nanos == 0
  }

  /** The fields of a wall-clock reading, as a parse collects them. */
  function ShownFields(c: Civil): (f: Fields)
    ensures FieldsCivil(f) == c
  {
    Fields(c.date.year, c.date.month, c.date.day, c.hour, c.minute, c.second, c.nanos)
  }

  /** A reading the layouts can show: a four-digit year and whole seconds. */
  predicate Showable(c: Civil)
  {
    ValidCivil(c) && 0 <= c.date.year <= 9999 && c.nanos == 0
  }

  /** An offset the numeric zones can show: whole minutes, at most 24 hours 59 minutes. */
  predicate ShowableOffset(offset: int)
  {
    offset % 60 == 0 && -89940 <= offset <= 89940
  }

  function Abs(x: int): int
  {
    if x < 0 then -x else x
  }

  function SignChar(offset: int): char
  {
    if offset < 0 then '-' else '+'
  }

  /** "2006-01-02", the separator, "15:04:05" and what follows, nested to the right. */
  function ShowDateAndClock(f: Fields, sep: char, tail: string): string
    requires Printable(f)
  {
    Pad4(f.year) + ("-" + (Pad2(f.month) + ("-" + (Pad2(f.day) + ([sep] +
      (Pad2(f.hour) + (":" + (Pad2(f.minute) + (":" + (Pad2(f.second) + tail))))))))))
  }

  /** "-0700" for a zone `offset` seconds east. */
  function ShowNumZone(offset: int): string
    requires ShowableOffset(offset)
  {
    var a := Abs(offset);
    [SignChar(offset)] + (Pad2(a / 3600) + Pad2(a % 3600 / 60))
  }

  /** "-07:00" for a zone `offset` seconds east. */
  function ShowNumColonZone(offset: int): string
    requires ShowableOffset(offset)
  {
    var a := Abs(offset);
    [SignChar(offset)] + (Pad2(a / 3600) + (":" + Pad2(a % 3600 / 60)))
  }

  /** Text in the layout "2006-01-02 15:04:05 -0700". */
  function ShowConductor(f: Fields, offset: int): string
    requires Printable(f) && ShowableOffset(offset)
  {
    ShowDateAndClock(f, ' ', " " + ShowNumZone(offset))
  }

  /** Text in the layout "2006-01-02T15:04:05-07:00". */
  function ShowJobError(f: Fields, offset: int): string
    requires Printable(f) && ShowableOffset(offset)
  {
    ShowDateAndClock(f, 'T', ShowNumColonZone(offset))
  }

  /** Text in the layout "2006-01-02T15:04:05.999Z" with whole seconds. */
  function ShowExpiration(f: Fields): string
    requires Printable(f)
  {
    ShowDateAndClock(f, 'T', "Z")
  }

  // The scanners read back what the renderers write.

  lemma Fixed2Pad(n: int, rest: string)
    requires 0 <= n <= 99
    ensures Fixed2(Pad2(n) + rest) == Some(Scan(n, rest))
  {
    assert (Pad2(n) + rest)[2..] == rest;
  }

  lemma OneOrTwoPad(n: int, rest: string)
    requires 0 <= n <= 99 && (|rest| == 0 || !IsDigit(rest[0]))
    ensures OneOrTwo(Pad2(n) + rest) == Some(Scan(n, rest))
  {
    assert (Pad2(n) + rest)[2..] == rest;
  }

  lemma YearPad(n: int, rest: string)
    requires 0 <= n <= 9999
    ensures Year(Pad4(n) + rest) == Some(Scan(n, rest))
  {
    assert (Pad4(n) + rest)[4..] == rest;
  }

  lemma ExpectLiteral(c: char, rest: string)
    ensures Expect([c] + rest, c) == Some(rest)
  {
    assert ([c] + rest)[1..] == rest;
  }

  lemma BlankSingle(rest: string)
    requires |rest| == 0 || rest[0] != ' '
    ensures Blank(" " + rest) == Some(rest)
  {
    assert (" " + rest)[1..] == rest;
  }

  /** The date and clock written by `ShowDateAndClock` scan back, leaving `tail`. */
  lemma DateAndClockShown(f: Fields, sep: char, tail: string)
    requires Printable(f) && (|tail| == 0 || !IsCommaOrPeriod(tail[0]))
    ensures DateAndClock(ShowDateAndClock(f, sep, tail), sep) == Some((f, tail))
  {
    var ss := Pad2(f.second) + tail;
    var mi := Pad2(f.minute) + (":" + ss);
    var hh := Pad2(f.hour) + (":" + mi);
    var dd := Pad2(f.day) + ([sep] + hh);
    var mo := Pad2(f.month) + ("-" + dd);
    assert ShowDateAndClock(f, sep, tail) == Pad4(f.year) + ("-" + mo);
    YearPad(f.year, "-" + mo);
    ExpectLiteral('-', mo);
    Fixed2Pad(f.month, "-" + dd);
    ExpectLiteral('-', dd);
    Fixed2Pad(f.day, [sep] + hh);
    if sep == ' ' {
      BlankSingle(hh);
    } else {
      ExpectLiteral(sep, hh);
    }
    OneOrTwoPad(f.hour, ":" + mi);
    ExpectLiteral(':', mi);
    Fixed2Pad(f.minute, ":" + ss);
    ExpectLiteral(':', ss);
    Fixed2Pad(f.second, tail);
  }

  lemma NumZoneShown(offset: int)
    requires ShowableOffset(offset)
    ensures NumZone(ShowNumZone(offset)) == Some(Scan(offset, ""))
  {
    var a := Abs(offset);
    var z := [SignChar(offset)] + (Pad2(a / 3600) + Pad2(a % 3600 / 60));
    assert |z| == 5 && z[0] == SignChar(offset) && z[5..] == "";
    assert z[1..3] == Pad2(a / 3600) + "";
    assert z[3..5] == Pad2(a % 3600 / 60) + "";
    Fixed2Pad(a / 3600, "");
    Fixed2Pad(a % 3600 / 60, "");
    OffsetSplit(offset);
    assert SignedOffset(SignChar(offset), a / 3600, a % 3600 / 60) == Some(offset);
  }

  lemma NumColonZoneShown(offset: int)
    requires ShowableOffset(offset)
    ensures NumColonZone(ShowNumColonZone(offset)) == Some(Scan(offset, ""))
  {
    var a := Abs(offset);
    var z := [SignChar(offset)] + (Pad2(a / 3600) + (":" + Pad2(a % 3600 / 60)));
    assert |z| == 6 && z[0] == SignChar(offset) && z[3] == ':' && z[6..] == "";
    assert z[1..3] == Pad2(a / 3600) + "";
    assert z[4..6] == Pad2(a % 3600 / 60) + "";
    Fixed2Pad(a / 3600, "");
    Fixed2Pad(a % 3600 / 60, "");
    OffsetSplit(offset);
    assert SignedOffset(SignChar(offset), a / 3600, a % 3600 / 60) == Some(offset);
  }

  /** An offset the zones can show is recovered from its hours and minutes. */
  lemma OffsetSplit(offset: int)
    requires ShowableOffset(offset)
    ensures var a := Abs(offset);
      && 0 <= a / 3600 <= 24 && 0 <= a % 3600 / 60 < 60
      && a == a / 3600 * 3600 + a % 3600 / 60 * 60
  {
    var a := Abs(offset);
    assert a % 60 == 0;
    assert a % 3600 == a % 3600 / 60 * 60 + a % 3600 % 60;
  }

  /**
   * Parsing text rendered in the Conductor layout checks the rendered fields'
   * ranges and gives the instant they name in the rendered zone.
   */
  lemma ConductorRoundTrip(f: Fields, offset: int)
    requires Printable(f) && ShowableOffset(offset)
    ensures ParseConductor(ShowConductor(f, offset)) == Resolve(f, offset)
  {
    DateAndClockShown(f, ' ', " " + ShowNumZone(offset));
    BlankSingle(ShowNumZone(offset));
    NumZoneShown(offset);
  }

  /** The same for the job-error layout. */
  lemma JobErrorRoundTrip(f: Fields, offset: int)
    requires Printable(f) && ShowableOffset(offset)
    ensures ParseJobError(ShowJobError(f, offset)) == Resolve(f, offset)
  {
    DateAndClockShown(f, 'T', ShowNumColonZone(offset));
    NumColonZoneShown(offset);
  }

  /** The same for the expiration layout, whose zone is always UTC. */
  lemma ExpirationRoundTrip(f: Fields)
    requires Printable(f)
    ensures ParseExpiration(ShowExpiration(f)) == Resolve(f, 0)
  {
    DateAndClockShown(f, 'T', "Z");
    ExpectLiteral('Z', "");
  }

  /** A valid reading rendered in the Conductor layout parses to that instant, in that zone. */
  lemma ConductorReadingRoundTrip(c: Civil, offset: int)
    requires Showable(c) && ShowableOffset(offset)
    ensures ParseConductor(ShowConductor(ShownFields(c), offset)) == Some(Time(ToUTC(c, offset), offset))
  {
    ConductorRoundTrip(ShownFields(c), offset);
  }

  /** A valid reading rendered in the job-error layout parses to that instant, in that zone. */
  lemma JobErrorReadingRoundTrip(c: Civil, offset: int)
    requires Showable(c) && ShowableOffset(offset)
    ensures ParseJobError(ShowJobError(ShownFields(c), offset)) == Some(Time(ToUTC(c, offset), offset))
  {
    JobErrorRoundTrip(ShownFields(c), offset);
  }

  /** A valid UTC reading rendered in the expiration layout parses back to itself. */
  lemma ExpirationReadingRoundTrip(c: Civil)
    requires Showable(c)
    ensures ParseExpiration(ShowExpiration(ShownFields(c))) == Some(Time(c, 0))
  {
    ExpirationRoundTrip(ShownFields(c));
    ToUTCAtZeroOffset(c);
  }
}

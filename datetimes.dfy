/** Date-times and the part of Python's `datetime.strptime` the program uses.

    `strptime` turns its format into a regular expression (each space run becoming `\s+`,
    matched case-insensitively from the start of the string), fills a record starting from
    1900-01-01 00:00:00, rejects unconverted trailing text, and builds a `datetime`, whose
    constructor rejects impossible dates. `Scan` follows that expression directive by
    directive, greedily. That agrees with the regular expression's backtracking whenever
    every numeric directive is followed by something that cannot start with a digit, which
    holds for every format below. */
module DateTimes {
  import opened Wrappers
  import opened Text

  datatype Fields = Fields(year: int, month: int, day: int, hour: int, minute: int, second: int, microsecond: int)

  predicate IsLeapYear(y: int) {
    y % 4 == 0 && (y % 100 != 0 || y % 400 == 0)
  }

  function DaysInMonth(y: int, m: int): int
    requires 1 <= m <= 12
  {
    if m == 2 then (if IsLeapYear(y) then 29 else 28)
    else if m == 4 || m == 6 || m == 9 || m == 11 then 30
    else 31
  }

  /** The range checks of Python's `datetime` constructor. */
  predicate IsValid(f: Fields) {
    && 1 <= f.year <= 9999
    && 1 <= f.month <= 12
    && 1 <= f.day <= DaysInMonth(f.year, f.month)
    && 0 <= f.hour < 24
    && 0 <= f.minute < 60
    && 0 <= f.second < 60
    && 0 <= f.microsecond < 1000000
  }

  /** A Python `datetime` (naive): always a real calendar instant. */
  type DateTime = f: Fields | IsValid(f) witness Fields(1900, 1, 1, 0, 0, 0, 0)

  /** What `strptime` fills in before reading any directive. */
  const Defaults: Fields := Fields(1900, 1, 1, 0, 0, 0, 0)

  /** `%Y %y %m %d %H %M %S %f`, a literal character, and a run of format whitespace. */
  datatype Directive = Year | ShortYear | Month | Day | Hour | Minute | Second | Fraction | Lit(c: char) | Spaces

  const DatePart: seq<Directive> := [Year, Lit('-'), Month, Lit('-'), Day]
  const TimePart: seq<Directive> := [Hour, Lit(':'), Minute, Lit(':'), Second]

  /** `%Y:%m:%d %H:%M:%S`, the EXIF capture-time layout. */
  const ExifFormat: seq<Directive> := [Year, Lit(':'), Month, Lit(':'), Day, Spaces] + TimePart
  /** `%Y-%m-%dT%H:%M:%S.%fZ` */
  const IsoFractionFormat: seq<Directive> := DatePart + [Lit('T')] + TimePart + [Lit('.'), Fraction, Lit('Z')]
  /** `%Y-%m-%d %H:%M:%S` */
  const SpacedFormat: seq<Directive> := DatePart + [Spaces] + TimePart
  /** `%Y-%m-%dT%H:%M:%SZ` */
  const IsoZuluFormat: seq<Directive> := DatePart + [Lit('T')] + TimePart + [Lit('Z')]
  /** `%d-%m-%y_%H.%M.%S`, the layout of the time stamp in a new file name. */
  const StampFormat: seq<Directive> :=
    [Day, Lit('-'), Month, Lit('-'), ShortYear, Lit('_'), Hour, Lit('.'), Minute, Lit('.'), Second]

  /** A number read from the front of a string, and what is left after it. */
  datatype Piece = Piece(value: nat, rest: string)

  /** `\d\d\d\d` */
  function FourDigits(s: string): Option<Piece> {
    if |s| >= 4 && AllDigits(s[..4]) then Some(Piece(DigitsValue(s[..4]), s[4..])) else None
  }

  /** `\d\d` */
  function TwoDigits(s: string): Option<Piece> {
    if |s| >= 2 && AllDigits(s[..2]) then Some(Piece(DigitsValue(s[..2]), s[2..])) else None
  }

  /** The one-or-two-digit alternatives of `%m %H %M %S` (and `%d` without its space form):
      the two-digit reading when two digits are there, else the one-digit reading, accepted
      when within `lo..hi`. */
  function Bounded(s: string, lo: nat, hi: nat): Option<Piece> {
    if |s| >= 2 && AllDigits(s[..2]) then
      var v := DigitsValue(s[..2]);
      if lo <= v <= hi then Some(Piece(v, s[2..])) else None
    else if |s| >= 1 && IsDigit(s[0]) then
      var v := DigitValue(s[0]);
      if lo <= v <= hi then Some(Piece(v, s[1..])) else None
    else None
  }

  /** `%d` also accepts a space followed by a digit 1-9. */
  function DayField(s: string): Option<Piece> {
    if |s| >= 2 && s[0] == ' ' && '1' <= s[1] <= '9' then Some(Piece(DigitValue(s[1]), s[2..]))
    else Bounded(s, 1, 31)
  }

  function DigitRun(s: string): (n: nat)
    ensures n <= |s| && AllDigits(s[..n])
    ensures n == |s| || !IsDigit(s[n])
    decreases |s|
  {
    if s != [] && IsDigit(s[0]) then 1 + DigitRun(s[1..]) else 0
  }

  function SpaceRun(s: string): (n: nat)
    ensures n <= |s|
    ensures forall k :: 0 <= k < n ==> IsSpace(s[k])
    ensures n == |s| || !IsSpace(s[n])
    decreases |s|
  {
    if s != [] && IsSpace(s[0]) then 1 + SpaceRun(s[1..]) else 0
  }

  /** `%f`: one to six digits, read as a fraction of a second and scaled to microseconds. */
  function FractionField(s: string): Option<Piece> {
    var n := DigitRun(s);
    if 1 <= n <= 6 then Some(Piece(DigitsValue(s[..n]) * Pow10(6 - n), s[n..])) else None
  }

  /** What one directive reads from the front of `s`. Literals compare case-insensitively. */
  function Consume(d: Directive, s: string): (r: Option<Piece>)
    ensures r.Some? ==> |r.value.rest| < |s| && r.value.rest == s[|s| - |r.value.rest|..]
  {
    match d
    case Year => FourDigits(s)
    case ShortYear => TwoDigits(s)
    case Month => Bounded(s, 1, 12)
    case Day => DayField(s)
    case Hour => Bounded(s, 0, 23)
    case Minute => Bounded(s, 0, 59)
    case Second => Bounded(s, 0, 61)
    case Fraction => FractionField(s)
    case Lit(c) => if |s| >= 1 && LowerChar(s[0]) == LowerChar(c) then Some(Piece(0, s[1..])) else None
    case Spaces => var n := SpaceRun(s); if n >= 1 then Some(Piece(0, s[n..])) else None
  }

  /** Storing what a directive read; `%y` 00-68 means 2000-2068 and 69-99 means 1969-1999. */
  function Assign(f: Fields, d: Directive, v: nat): Fields {
    match d
    case Year => f.(year := v)
    case ShortYear => f.(year := if v <= 68 then v + 2000 else v + 1900)
    case Month => f.(month := v)
    case Day => f.(day := v)
    case Hour => f.(hour := v)
    case Minute => f.(minute := v)
    case Second => f.(second := v)
    case Fraction => f.(microsecond := v)
    case Lit(_) => f
    case Spaces => f
  }

  /** The regular expression's `match` at the start of `s`: the text left over and the
      fields read, or no match. */
  function Scan(s: string, fmt: seq<Directive>, f: Fields): (r: Option<(string, Fields)>)
    ensures r.Some? ==> |r.value.0| + |fmt| <= |s| && r.value.0 == s[|s| - |r.value.0|..]
    decreases |fmt|
  {
    if fmt == [] then Some((s, f))
    else
      match Consume(fmt[0], s)
      case None => None
      case Some(p) =>
        var r := Scan(p.rest, fmt[1..], Assign(f, fmt[0], p.value));
        assert r.Some? ==> r.value.0 == s[|s| - |r.value.0|..] by {
          if r.Some? {
            assert p.rest[|p.rest| - |r.value.0|..] == s[|s| - |r.value.0|..];
          }
        }
        r
  }

  /** `datetime.strptime(s, fmt)`, with `None` for the `ValueError` it raises. */
  function Parse(s: string, fmt: seq<Directive>): (r: Option<DateTime>)
    ensures r.Some? ==> |fmt| <= |s|
  {
    match Scan(s, fmt, Defaults)
    case None => None
    case Some((rest, f)) => if rest == [] && IsValid(f) then Some(f) else None
  }

  // ---------------------------------------------------------------------------------------
  // A canonical rendering, zero-padded, against which the parser is checked.

  function FieldValue(d: Directive, dt: DateTime): nat {
    match d
    case Year => dt.year
    case ShortYear => dt.year % 100
    case Month => dt.month
    case Day => dt.day
    case Hour => dt.hour
    case Minute => dt.minute
    case Second => dt.second
    case Fraction => dt.microsecond
    case _ => 0
  }

  function RenderOne(d: Directive, dt: DateTime): string {
    match d
    case Year => PadDigits(dt.year, 4)
    case ShortYear => PadDigits(dt.year % 100, 2)
    case Month => PadDigits(dt.month, 2)
    case Day => PadDigits(dt.day, 2)
    case Hour => PadDigits(dt.hour, 2)
    case Minute => PadDigits(dt.minute, 2)
    case Second => PadDigits(dt.second, 2)
    case Fraction => PadDigits(dt.microsecond, 6)
    case Lit(c) => [c]
    case Spaces => " "
  }

  function Render(dt: DateTime, fmt: seq<Directive>): string
    decreases |fmt|
  {
    if fmt == [] then "" else RenderOne(fmt[0], dt) + Render(dt, fmt[1..])
  }

  predicate StartsWithDigit(d: Directive) {
    !(d.Lit? || d.Spaces?) || (d.Lit? && IsDigit(d.c))
  }

  predicate StartsWithSpace(d: Directive) {
    d.Spaces? || (d.Lit? && IsSpace(d.c))
  }

  /** A fraction is never followed by a digit and a space run never by whitespace, so the
      greedy runs stop where the rendering of the directive stops. */
  predicate Separated(fmt: seq<Directive>) {
    forall i :: 0 <= i < |fmt| - 1 ==>
      (fmt[i].Fraction? ==> !StartsWithDigit(fmt[i + 1])) && (fmt[i].Spaces? ==> !StartsWithSpace(fmt[i + 1]))
  }

  /** The fields a successful scan of the rendering ends with. */
  function Filled(f: Fields, fmt: seq<Directive>, dt: DateTime): Fields
    decreases |fmt|
  {
    if fmt == [] then f else Filled(Assign(f, fmt[0], FieldValue(fmt[0], dt)), fmt[1..], dt)
  }

  lemma TwoDigitValue(n: nat)
    requires n < 100
    ensures DigitsValue(PadDigits(n, 2)) == n
  {
    PadDigitsRoundTrip(n, 2);
  }

  lemma BoundedRendered(v: nat, lo: nat, hi: nat, rest: string)
    requires lo <= v <= hi < 100
    ensures Bounded(PadDigits(v, 2) + rest, lo, hi) == Some(Piece(v, rest))
  {
    var s := PadDigits(v, 2) + rest;
    assert s[..2] == PadDigits(v, 2) && s[2..] == rest;
    TwoDigitValue(v);
  }

  lemma YearRendered(y: nat, rest: string)
    requires y < 10000
    ensures FourDigits(PadDigits(y, 4) + rest) == Some(Piece(y, rest))
  {
    var s := PadDigits(y, 4) + rest;
    assert s[..4] == PadDigits(y, 4) && s[4..] == rest;
    PadDigitsRoundTrip(y, 4);
  }

  lemma ShortYearRendered(y: nat, rest: string)
    requires y < 100
    ensures TwoDigits(PadDigits(y, 2) + rest) == Some(Piece(y, rest))
  {
    var s := PadDigits(y, 2) + rest;
    assert s[..2] == PadDigits(y, 2) && s[2..] == rest;
    TwoDigitValue(y);
  }

  lemma FractionRendered(us: nat, rest: string)
    requires us < 1000000
    requires rest == [] || !IsDigit(rest[0])
    ensures FractionField(PadDigits(us, 6) + rest) == Some(Piece(us, rest))
  {
    var s := PadDigits(us, 6) + rest;
    PadDigitsRoundTrip(us, 6);
    assert s[..6] == PadDigits(us, 6) && s[6..] == rest;
    assert DigitRun(s) == 6;
  }

  /** Each directive reads back exactly its own rendering. */
  lemma ConsumeRendered(d: Directive, dt: DateTime, rest: string)
    requires d.Fraction? ==> rest == [] || !IsDigit(rest[0])
    requires d.Spaces? ==> rest == [] || !IsSpace(rest[0])
    ensures Consume(d, RenderOne(d, dt) + rest) == Some(Piece(FieldValue(d, dt), rest))
  {
    var s := RenderOne(d, dt) + rest;
    match d
    case Year => YearRendered(dt.year, rest);
    case Fraction => FractionRendered(dt.microsecond, rest);
    case Lit(c) => assert s[1..] == rest;
    case Spaces =>
      assert SpaceRun(s) == 1;
      assert s[1..] == rest;
    case ShortYear => ShortYearRendered(dt.year % 100, rest);
    case Month => BoundedRendered(dt.month, 1, 12, rest);
    case Day =>
      BoundedRendered(dt.day, 1, 31, rest);
      assert s[0] != ' ';
    case Hour => BoundedRendered(dt.hour, 0, 23, rest);
    case Minute => BoundedRendered(dt.minute, 0, 59, rest);
    case Second => BoundedRendered(dt.second, 0, 61, rest);
  }

  lemma RenderedStart(d: Directive, dt: DateTime)
    ensures |RenderOne(d, dt)| >= 1
    ensures IsDigit(RenderOne(d, dt)[0]) <==> StartsWithDigit(d)
    ensures IsSpace(RenderOne(d, dt)[0]) <==> StartsWithSpace(d)
  {
  }

  lemma {:induction false} ScanRendered(dt: DateTime, fmt: seq<Directive>, f: Fields)
    requires Separated(fmt)
    ensures Scan(Render(dt, fmt), fmt, f) == Some(([], Filled(f, fmt, dt)))
    decreases |fmt|
  {
    if fmt != [] {
      var rest := Render(dt, fmt[1..]);
      if |fmt| > 1 {
        RenderedStart(fmt[1], dt);
        assert rest[0] == RenderOne(fmt[1], dt)[0];
        assert fmt[0].Fraction? ==> !StartsWithDigit(fmt[1]);
        assert fmt[0].Spaces? ==> !StartsWithSpace(fmt[1]);
      }
      ConsumeRendered(fmt[0], dt, rest);
      assert Separated(fmt[1..]) by {
        forall i | 0 <= i < |fmt[1..]| - 1
          ensures (fmt[1..][i].Fraction? ==> !StartsWithDigit(fmt[1..][i + 1]))
                  && (fmt[1..][i].Spaces? ==> !StartsWithSpace(fmt[1..][i + 1]))
        {
          assert fmt[1..][i] == fmt[i + 1] && fmt[1..][i + 1] == fmt[i + 2];
        }
      }
      ScanRendered(dt, fmt[1..], Assign(f, fmt[0], FieldValue(fmt[0], dt)));
    }
  }

  /** Which directive, if any, decides each field of the filled record. */
  lemma {:induction false} FilledFields(f: Fields, fmt: seq<Directive>, dt: DateTime)
    requires !(Year in fmt && ShortYear in fmt)
    ensures var g := Filled(f, fmt, dt);
      && g.year == (if Year in fmt then dt.year
                    else if ShortYear in fmt then (if dt.year % 100 <= 68 then dt.year % 100 + 2000 else dt.year % 100 + 1900)
                    else f.year)
      && g.month == (if Month in fmt then dt.month else f.month)
      && g.day == (if Day in fmt then dt.day else f.day)
      && g.hour == (if Hour in fmt then dt.hour else f.hour)
      && g.minute == (if Minute in fmt then dt.minute else f.minute)
      && g.second == (if Second in fmt then dt.second else f.second)
      && g.microsecond == (if Fraction in fmt then dt.microsecond else f.microsecond)
    decreases |fmt|
  {
    if fmt != [] {
      assert forall d :: d in fmt <==> d == fmt[0] || d in fmt[1..] by {
        assert fmt == [fmt[0]] + fmt[1..];
      }
      FilledFields(Assign(f, fmt[0], FieldValue(fmt[0], dt)), fmt[1..], dt);
    }
  }

  /** The format fixes every field of `dt` (`%y` only within 1969-2068). */
  predicate Determines(fmt: seq<Directive>, dt: DateTime) {
    && ((Year in fmt && ShortYear !in fmt) || (ShortYear in fmt && Year !in fmt && 1969 <= dt.year <= 2068))
    && Month in fmt && Day in fmt && Hour in fmt && Minute in fmt && Second in fmt
    && (Fraction in fmt || dt.microsecond == 0)
  }

  lemma FilledIsDateTime(fmt: seq<Directive>, dt: DateTime)
    requires Determines(fmt, dt)
    ensures Filled(Defaults, fmt, dt) == dt
  {
    FilledFields(Defaults, fmt, dt);
  }

  /** `strptime` reads a canonical rendering back to the very same date-time. */
  lemma ParseRendered(dt: DateTime, fmt: seq<Directive>)
    requires Separated(fmt) && Determines(fmt, dt)
    ensures Parse(Render(dt, fmt), fmt) == Some(dt)
  {
    ScanRendered(dt, fmt, Defaults);
    FilledIsDateTime(fmt, dt);
  }

  /** The directives every format fixing all the fields contains. */
  predicate HasClockFields(fmt: seq<Directive>) {
    Month in fmt && Day in fmt && Hour in fmt && Minute in fmt && Second in fmt
  }

  /** `%Y-%m-%dT%H:%M:%S`, the part the two ISO formats share, written out. */
  const ClockDisplay: seq<Directive> := [Year, Lit('-'), Month, Lit('-'), Day, Lit('T'), Hour, Lit(':'), Minute, Lit(':'), Second]

  lemma ClockWrittenOut()
    ensures DatePart + [Lit('T')] + TimePart == ClockDisplay
  {
  }

  lemma ExifShape()
    ensures Separated(ExifFormat) && HasClockFields(ExifFormat)
    ensures Year in ExifFormat && ShortYear !in ExifFormat
  {
    ExifWrittenOut();
  }

  lemma ExifWrittenOut()
    ensures ExifFormat == [Year, Lit(':'), Month, Lit(':'), Day, Spaces, Hour, Lit(':'), Minute, Lit(':'), Second]
  {
  }

  lemma IsoFractionWrittenOut()
    ensures IsoFractionFormat ==
      [Year, Lit('-'), Month, Lit('-'), Day, Lit('T'), Hour, Lit(':'), Minute, Lit(':'), Second, Lit('.'), Fraction, Lit('Z')]
  {
    ClockWrittenOut();
    assert IsoFractionFormat == ClockDisplay + [Lit('.'), Fraction, Lit('Z')];
  }

  lemma IsoFractionSeparated()
    ensures Separated(IsoFractionFormat)
  {
    IsoFractionWrittenOut();
    var f := IsoFractionFormat;
    forall i | 0 <= i < |f| - 1
      ensures (f[i].Fraction? ==> !StartsWithDigit(f[i + 1])) && (f[i].Spaces? ==> !StartsWithSpace(f[i + 1]))
    {
      if i == 12 {
        assert f[i + 1] == Lit('Z');
      } else {
        assert !f[i].Fraction? && !f[i].Spaces?;
      }
    }
  }

  lemma IsoFractionShape()
    ensures Separated(IsoFractionFormat) && HasClockFields(IsoFractionFormat)
    ensures Year in IsoFractionFormat && ShortYear !in IsoFractionFormat && Fraction in IsoFractionFormat
  {
    IsoFractionSeparated();
    IsoFractionWrittenOut();
  }

  lemma SpacedWrittenOut()
    ensures SpacedFormat == [Year, Lit('-'), Month, Lit('-'), Day, Spaces, Hour, Lit(':'), Minute, Lit(':'), Second]
  {
  }

  lemma SpacedShape()
    ensures Separated(SpacedFormat) && HasClockFields(SpacedFormat)
    ensures Year in SpacedFormat && ShortYear !in SpacedFormat
  {
    SpacedWrittenOut();
  }

  lemma IsoZuluWrittenOut()
    ensures IsoZuluFormat == [Year, Lit('-'), Month, Lit('-'), Day, Lit('T'), Hour, Lit(':'), Minute, Lit(':'), Second, Lit('Z')]
  {
    ClockWrittenOut();
    assert IsoZuluFormat == ClockDisplay + [Lit('Z')];
  }

  lemma IsoZuluShape()
    ensures Separated(IsoZuluFormat) && HasClockFields(IsoZuluFormat)
    ensures Year in IsoZuluFormat && ShortYear !in IsoZuluFormat
  {
    IsoZuluWrittenOut();
  }

  /** The four formats the program parses read their renderings back; the ones without
      `%f` carry no microseconds. */
  lemma KnownFormatsRoundTrip(dt: DateTime)
    ensures Parse(Render(dt, IsoFractionFormat), IsoFractionFormat) == Some(dt)
    ensures dt.microsecond == 0 ==> Parse(Render(dt, ExifFormat), ExifFormat) == Some(dt)
    ensures dt.microsecond == 0 ==> Parse(Render(dt, SpacedFormat), SpacedFormat) == Some(dt)
    ensures dt.microsecond == 0 ==> Parse(Render(dt, IsoZuluFormat), IsoZuluFormat) == Some(dt)
  {
    IsoFractionShape();
    ParseRendered(dt, IsoFractionFormat);
    if dt.microsecond == 0 {
      ExifShape();
      ParseRendered(dt, ExifFormat);
      SpacedShape();
      ParseRendered(dt, SpacedFormat);
      IsoZuluShape();
      ParseRendered(dt, IsoZuluFormat);
    }
  }

  // ---------------------------------------------------------------------------------------
  // The three video formats never both accept a string.

  lemma {:induction false} ScanAppend(s: string, p: seq<Directive>, q: seq<Directive>, f: Fields)
    ensures Scan(s, p + q, f) == match Scan(s, p, f) case None => None case Some((r, g)) => Scan(r, q, g)
    decreases |p|
  {
    if p == [] {
      assert p + q == q;
    } else {
      assert p + q != [];
      assert (p + q)[0] == p[0] && (p + q)[1..] == p[1..] + q;
      match Consume(p[0], s)
      case None =>
      case Some(piece) =>
        var g := Assign(f, p[0], piece.value);
        assert Scan(s, p + q, f) == Scan(piece.rest, p[1..] + q, g);
        assert Scan(s, p, f) == Scan(piece.rest, p[1..], g);
        ScanAppend(piece.rest, p[1..], q, g);
    }
  }

  /** Two formats that agree up to `p` and then continue with `d1` and `d2`: if both match
      `s`, then `d1` and `d2` both match one and the same remainder. */
  lemma SharedPrefix(s: string, p: seq<Directive>, d1: Directive, q1: seq<Directive>, d2: Directive, q2: seq<Directive>)
    returns (r: string)
    requires Scan(s, p + ([d1] + q1), Defaults).Some?
    requires Scan(s, p + ([d2] + q2), Defaults).Some?
    ensures Consume(d1, r).Some? && Consume(d2, r).Some?
  {
    ScanAppend(s, p, [d1] + q1, Defaults);
    ScanAppend(s, p, [d2] + q2, Defaults);
    var (r0, g) := Scan(s, p, Defaults).value;
    assert ([d1] + q1)[0] == d1 && ([d2] + q2)[0] == d2;
    r := r0;
  }

  /** A literal letter and a run of whitespace never both match the front of one string. */
  lemma LetterIsNotSpace(c: char, r: string)
    requires 'A' <= c <= 'Z'
    ensures !(Consume(Lit(c), r).Some? && Consume(Spaces, r).Some?)
  {
  }

  /** No string starts with both `.` and `Z`. */
  lemma DotIsNotZulu(r: string)
    ensures !(Consume(Lit('.'), r).Some? && Consume(Lit('Z'), r).Some?)
  {
  }

  /** `T` and whitespace never both match one character, so a string is never read as both
      a `T`-separated and a space-separated layout. */
  lemma FractionNotSpaced(s: string)
    ensures Parse(s, IsoFractionFormat).Some? ==> Parse(s, SpacedFormat).None?
  {
    if Parse(s, IsoFractionFormat).Some? && Parse(s, SpacedFormat).Some? {
      var tail := TimePart + [Lit('.'), Fraction, Lit('Z')];
      assert IsoFractionFormat == DatePart + ([Lit('T')] + tail);
      assert SpacedFormat == DatePart + ([Spaces] + TimePart);
      var r := SharedPrefix(s, DatePart, Lit('T'), tail, Spaces, TimePart);
      LetterIsNotSpace('T', r);
      assert false;
    }
  }

  lemma ZuluNotSpaced(s: string)
    ensures Parse(s, SpacedFormat).Some? ==> Parse(s, IsoZuluFormat).None?
  {
    if Parse(s, IsoZuluFormat).Some? && Parse(s, SpacedFormat).Some? {
      var tail := TimePart + [Lit('Z')];
      assert IsoZuluFormat == DatePart + ([Lit('T')] + tail);
      assert SpacedFormat == DatePart + ([Spaces] + TimePart);
      var r := SharedPrefix(s, DatePart, Lit('T'), tail, Spaces, TimePart);
      LetterIsNotSpace('T', r);
      assert false;
    }
  }

  /** After the seconds, one layout wants `.` and the other `Z`. */
  lemma FractionNotZulu(s: string)
    ensures Parse(s, IsoFractionFormat).Some? ==> Parse(s, IsoZuluFormat).None?
  {
    if Parse(s, IsoFractionFormat).Some? && Parse(s, IsoZuluFormat).Some? {
      var clock := DatePart + [Lit('T')] + TimePart;
      assert IsoFractionFormat == clock + ([Lit('.')] + [Fraction, Lit('Z')]);
      assert IsoZuluFormat == clock + ([Lit('Z')] + []);
      var r := SharedPrefix(s, clock, Lit('.'), [Fraction, Lit('Z')], Lit('Z'), []);
      DotIsNotZulu(r);
      assert false;
    }
  }

  /** At most one of the three video formats accepts any given string, so the order in
      which they are tried never changes the date-time obtained. */
  lemma VideoFormatsExclusive(s: string)
    ensures Parse(s, IsoFractionFormat).Some? ==> Parse(s, SpacedFormat).None? && Parse(s, IsoZuluFormat).None?
    ensures Parse(s, SpacedFormat).Some? ==> Parse(s, IsoZuluFormat).None?
  {
    FractionNotSpaced(s);
    ZuluNotSpaced(s);
    FractionNotZulu(s);
  }
}

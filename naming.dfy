/** The new file name `preview_changes` proposes: the sanitized label, an underscore, the
    resolved date-time as `%d-%m-%y_%H.%M.%S`, and the original suffix. */
module Naming {
  import opened Wrappers
  import opened Text
  import opened Paths
  import opened DateTimes
  import opened Scanner
  import opened Resolver

  /** `dt.strftime('%d-%m-%y_%H.%M.%S')`: day, month and two-digit year joined by dashes,
      an underscore, then hour, minute and second joined by dots, each zero-padded to two
      digits. */
  function Stamp(dt: DateTime): string {
    PadDigits(dt.day, 2) + "-" + PadDigits(dt.month, 2) + "-" + PadDigits(dt.year % 100, 2)
      + "_" + PadDigits(dt.hour, 2) + "." + PadDigits(dt.minute, 2) + "." + PadDigits(dt.second, 2)
  }

  lemma RenderCons(dt: DateTime, d: Directive, rest: seq<Directive>)
    ensures Render(dt, [d] + rest) == RenderOne(d, dt) + Render(dt, rest)
  {
    assert ([d] + rest)[1..] == rest;
  }

  lemma RenderedTime(dt: DateTime)
    ensures Render(dt, [Hour, Lit('.'), Minute, Lit('.'), Second]) ==
              PadDigits(dt.hour, 2) + ("." + (PadDigits(dt.minute, 2) + ("." + PadDigits(dt.second, 2))))
  {
    RenderCons(dt, Second, []);
    RenderCons(dt, Lit('.'), [Second]);
    RenderCons(dt, Minute, [Lit('.'), Second]);
    RenderCons(dt, Lit('.'), [Minute, Lit('.'), Second]);
    RenderCons(dt, Hour, [Lit('.'), Minute, Lit('.'), Second]);
    assert [Hour] + [Lit('.'), Minute, Lit('.'), Second] == [Hour, Lit('.'), Minute, Lit('.'), Second];
  }

  lemma RenderedStampNested(dt: DateTime)
    ensures Render(dt, StampFormat) ==
              PadDigits(dt.day, 2) + ("-" + (PadDigits(dt.month, 2) + ("-" + (PadDigits(dt.year % 100, 2) + ("_" +
              (PadDigits(dt.hour, 2) + ("." + (PadDigits(dt.minute, 2) + ("." + PadDigits(dt.second, 2))))))))))
  {
    var time := [Hour, Lit('.'), Minute, Lit('.'), Second];
    RenderedTime(dt);
    RenderCons(dt, Lit('_'), time);
    RenderCons(dt, ShortYear, [Lit('_')] + time);
    RenderCons(dt, Lit('-'), [ShortYear] + ([Lit('_')] + time));
    RenderCons(dt, Month, [Lit('-')] + ([ShortYear] + ([Lit('_')] + time)));
    RenderCons(dt, Lit('-'), [Month] + ([Lit('-')] + ([ShortYear] + ([Lit('_')] + time))));
    RenderCons(dt, Day, [Lit('-')] + ([Month] + ([Lit('-')] + ([ShortYear] + ([Lit('_')] + time)))));
    assert [Day] + ([Lit('-')] + ([Month] + ([Lit('-')] + ([ShortYear] + ([Lit('_')] + time))))) == StampFormat;
  }

  lemma Regroup(d: string, m: string, y: string, h: string, mi: string, se: string)
    ensures d + ("-" + (m + ("-" + (y + ("_" + (h + ("." + (mi + ("." + se))))))))) ==
            d + "-" + m + "-" + y + "_" + h + "." + mi + "." + se
  {
  }

  /** The stamp is the rendering of the date-time under the stamp's own format. */
  lemma StampIsRendering(dt: DateTime)
    ensures Stamp(dt) == Render(dt, StampFormat)
  {
    RenderedStampNested(dt);
    Regroup(PadDigits(dt.day, 2), PadDigits(dt.month, 2), PadDigits(dt.year % 100, 2),
            PadDigits(dt.hour, 2), PadDigits(dt.minute, 2), PadDigits(dt.second, 2));
  }

  lemma StampFormatSeparated()
    ensures Separated(StampFormat)
  {
    var f := StampFormat;
    forall i | 0 <= i < |f| - 1
      ensures (f[i].Fraction? ==> !StartsWithDigit(f[i + 1])) && (f[i].Spaces? ==> !StartsWithSpace(f[i + 1]))
    {
      assert !f[i].Fraction? && !f[i].Spaces?;
    }
  }

  /** The stamp format fixes every field except the microseconds, and the year only through
      `%y`. */
  lemma StampFormatFields(dt: DateTime)
    requires 1969 <= dt.year <= 2068 && dt.microsecond == 0
    ensures Determines(StampFormat, dt)
  {
    var f := StampFormat;
    assert f[0] == Day && f[2] == Month && f[4] == ShortYear;
    assert f[6] == Hour && f[8] == Minute && f[10] == Second;
    assert Year !in f;
  }

  /** Within the hundred years `%y` can tell apart (1969-2068), `strptime` with the same
      format returns the date-time the stamp came from, to the second. */
  lemma StampReadsBack(dt: DateTime)
    requires 1969 <= dt.year <= 2068 && dt.microsecond == 0
    ensures Parse(Stamp(dt), StampFormat) == Some(dt)
  {
    StampIsRendering(dt);
    StampFormatSeparated();
    StampFormatFields(dt);
    ParseRendered(dt, StampFormat);
  }

  /** `f"{custom_name}_{dt_str}{file_path.suffix}"`. */
  function NewName(prefix: string, dt: DateTime, suffix: string): string {
    prefix + "_" + Stamp(dt) + suffix
  }

  /** The proposed name keeps the file's suffix, so the file stays supported and of the same
      kind, and its stem is exactly the prefix, an underscore and the stamp, even when the
      prefix contains dots. */
  lemma NewNameParts(prefix: string, dt: DateTime, name: string)
    requires IsSupported(name)
    ensures Suffix(NewName(prefix, dt, Suffix(name))) == Suffix(name)
    ensures Stem(NewName(prefix, dt, Suffix(name))) == prefix + "_" + Stamp(dt)
    ensures IsSupported(NewName(prefix, dt, Suffix(name)))
    ensures IsImage(NewName(prefix, dt, Suffix(name))) <==> IsImage(name)
    ensures IsVideo(NewName(prefix, dt, Suffix(name))) <==> IsVideo(name)
  {
    StemSuffixSplit(name);
    assert Suffix(name) != "";
    SuffixOfAppended(prefix + "_" + Stamp(dt), Suffix(name));
  }

  /** One row of `preview_data`. */
  datatype PreviewItem = PreviewItem(original: string, newName: string, dt: DateTime, source: Source)

  /** The body of the preview loop for one file. */
  function PreviewFor(prefix: string, name: string, facts: MediaFacts, fromTimestamp: real -> Option<DateTime>): PreviewItem
  {
    var res := Resolve(name, facts, fromTimestamp);
    PreviewItem(name, NewName(prefix, res.dt, Suffix(name)), res.dt, res.source)
  }

  /** A row's new name keeps the file's suffix and has as stem the prefix, an underscore and
      the stamp of the row's date-time. */
  predicate NameKeepsParts(prefix: string, name: string, p: PreviewItem) {
    Suffix(p.newName) == Suffix(name) && Stem(p.newName) == prefix + "_" + Stamp(p.dt)
  }

  /** `f` applied to every element of `s`, in order. */
  function MapSeq<A, B>(f: A -> B, s: seq<A>): (r: seq<B>)
    ensures |r| == |s|
    ensures forall k :: 0 <= k < |s| ==> r[k] == f(s[k])
  {
    seq(|s|, k requires 0 <= k < |s| => f(s[k]))
  }

  /** Mapping one more element appends its image. */
  lemma MapSeqSnoc<A, B>(f: A -> B, s: seq<A>, i: nat)
    requires i < |s|
    ensures MapSeq(f, s[..i + 1]) == MapSeq(f, s[..i]) + [f(s[i])]
  {
    assert MapSeq(f, s[..i + 1])[..i] == MapSeq(f, s[..i]);
  }

  /** The row-building function of one preview run. */
  function RowOf(prefix: string, facts: string -> MediaFacts, fromTimestamp: real -> Option<DateTime>): string -> PreviewItem {
    name => PreviewFor(prefix, name, facts(name), fromTimestamp)
  }

  /** `preview_data` as the preview loop builds it: one row per scanned file, in the same
      order, each the row of its own file. */
  function PreviewRows(prefix: string, files: seq<string>, facts: string -> MediaFacts, fromTimestamp: real -> Option<DateTime>)
    : (rows: seq<PreviewItem>)
    ensures |rows| == |files|
    ensures forall k :: 0 <= k < |files| ==> rows[k] == PreviewFor(prefix, files[k], facts(files[k]), fromTimestamp)
  {
    MapSeq(RowOf(prefix, facts, fromTimestamp), files)
  }

  /** When every scanned file is supported, every new name of the preview keeps its file's
      suffix and has the prefix, an underscore and the row's stamp as stem. */
  lemma PreviewRowsKeepParts(prefix: string, files: seq<string>, facts: string -> MediaFacts, fromTimestamp: real -> Option<DateTime>)
    requires forall k :: 0 <= k < |files| ==> IsSupported(files[k])
    ensures forall k :: 0 <= k < |files| ==> NameKeepsParts(prefix, files[k], PreviewRows(prefix, files, facts, fromTimestamp)[k])
  {
    var rows := PreviewRows(prefix, files, facts, fromTimestamp);
    forall k | 0 <= k < |files|
      ensures NameKeepsParts(prefix, files[k], rows[k])
    {
      NewNameParts(prefix, rows[k].dt, files[k]);
    }
  }

  lemma PadTwo(n: nat)
    requires n < 100
    ensures PadDigits(n, 2) == [DigitChar(n / 10), DigitChar(n % 10)]
  {
    var hi := n / 10;
    assert hi < 10 && hi % 10 == hi && hi / 10 == 0;
    assert PadDigits(hi, 1) == PadDigits(0, 0) + [DigitChar(hi)];
    assert PadDigits(n, 2) == PadDigits(hi, 1) + [DigitChar(n % 10)];
  }

  lemma TripFields()
    ensures PadDigits(5, 2) == "05" && PadDigits(3, 2) == "03" && PadDigits(24, 2) == "24"
    ensures PadDigits(14, 2) == "14" && PadDigits(30, 2) == "30" && PadDigits(0, 2) == "00"
  {
    PadTwo(5);
    PadTwo(3);
    PadTwo(24);
    PadTwo(14);
    PadTwo(30);
    PadTwo(0);
    assert DigitChar(1) == '1' && DigitChar(2) == '2' && DigitChar(3) == '3';
  }

  lemma TripPieces(d: string, m: string, y: string, h: string, mi: string, se: string)
    requires d == "05" && m == "03" && y == "24" && h == "14" && mi == "30" && se == "00"
    ensures d + "-" + m + "-" + y + "_" + h + "." + mi + "." + se == "05-03-24_14.30.00"
  {
  }

  lemma TripStamp(dt: DateTime)
    requires dt.year == 2024 && dt.month == 3 && dt.day == 5
    requires dt.hour == 14 && dt.minute == 30 && dt.second == 0
    ensures Stamp(dt) == "05-03-24_14.30.00"
  {
    TripFields();
    TripPieces(PadDigits(dt.day, 2), PadDigits(dt.month, 2), PadDigits(dt.year % 100, 2),
               PadDigits(dt.hour, 2), PadDigits(dt.minute, 2), PadDigits(dt.second, 2));
  }

  /** Example (main.py:229-230): label "Trip", a `.jpg` file, resolved to 2024-03-05 14:30:00. */
  lemma TripExample(dt: DateTime)
    requires dt.year == 2024 && dt.month == 3 && dt.day == 5
    requires dt.hour == 14 && dt.minute == 30 && dt.second == 0
    ensures Stamp(dt) == "05-03-24_14.30.00"
    ensures NewName("Trip", dt, ".jpg") == "Trip_" + "05-03-24_14.30.00" + ".jpg"
  {
    TripStamp(dt);
  }
}

/** Choosing a file's date-time: `get_image_datetime`, `get_video_datetime`,
    `get_file_datetime` and the dispatch between them in `preview_changes`. What the image
    library, `ffprobe`, `os.stat`, `datetime.fromtimestamp` and `datetime.now` answer is
    given to these functions as data. */
module Resolver {
  import opened Wrappers
  import opened DateTimes
  import opened Scanner

  /** A metadata value: text, or anything else (bytes, a number), for which `strptime`
      raises `TypeError` instead of `ValueError`. */
  datatype TagValue = TextValue(text: string) | OtherValue

  // ---------------------------------------------------------------------------------------
  // Images: the EXIF tag map, in its iteration order.

  /** One EXIF entry: the tag's name as `TAGS.get(tag_id, tag_id)` gives it, and its value. */
  type ExifEntry = (string, TagValue)

  const DateTagNames: set<string> := {"DateTime", "DateTimeOriginal", "DateTimeDigitized"}

  function ExifValueTime(v: TagValue): Option<DateTime> {
    if v.TextValue? then Parse(v.text, ExifFormat) else None
  }

  /** Entry `i` is the first of the three capture-time tags met in iteration order. */
  predicate IsFirstDateTag(tags: seq<ExifEntry>, i: int) {
    0 <= i < |tags| && tags[i].0 in DateTagNames && forall j :: 0 <= j < i ==> tags[j].0 !in DateTagNames
  }

  /** The loop over `exif_data.items()`: the first capture-time tag decides, whether or not
      its value parses; later tags are never tried. */
  function FromExifTags(tags: seq<ExifEntry>): (r: Option<DateTime>)
    ensures forall i :: IsFirstDateTag(tags, i) ==> r == ExifValueTime(tags[i].1)
    ensures (forall i :: 0 <= i < |tags| ==> tags[i].0 !in DateTagNames) ==> r == None
    decreases |tags|
  {
    if tags == [] then None
    else if tags[0].0 in DateTagNames then ExifValueTime(tags[0].1)
    else
      assert forall i :: IsFirstDateTag(tags, i) ==> IsFirstDateTag(tags[1..], i - 1);
      FromExifTags(tags[1..])
  }

  /** `get_image_datetime`, without its source label; `exif` is `None` when the image cannot
      be opened or carries no EXIF block. An empty block is as good as none. */
  function ImageDateTime(exif: Option<seq<ExifEntry>>): Option<DateTime> {
    match exif
    case None => None
    case Some(tags) => FromExifTags(tags)
  }

  // ---------------------------------------------------------------------------------------
  // Videos: the `format.tags` map of `ffprobe`'s JSON output.

  const VideoKeys: seq<string> := ["creation_time", "date", "com.apple.quicktime.creationdate"]
  const VideoFormats: seq<seq<Directive>> := [IsoFractionFormat, SpacedFormat, IsoZuluFormat]

  /** Format `i` is the first in `fmts` under which `s` parses. */
  predicate IsFirstAccepting(s: string, fmts: seq<seq<Directive>>, i: int) {
    0 <= i < |fmts| && Parse(s, fmts[i]).Some? && forall j :: 0 <= j < i ==> Parse(s, fmts[j]).None?
  }

  /** The inner loop over formats: the first format under which the value parses wins. */
  function FirstFormat(s: string, fmts: seq<seq<Directive>>): (r: Option<DateTime>)
    ensures forall i :: IsFirstAccepting(s, fmts, i) ==> r == Parse(s, fmts[i])
    ensures (forall i :: 0 <= i < |fmts| ==> Parse(s, fmts[i]).None?) ==> r == None
    decreases |fmts|
  {
    if fmts == [] then None
    else if Parse(s, fmts[0]).Some? then Parse(s, fmts[0])
    else
      assert forall i :: IsFirstAccepting(s, fmts, i) ==> IsFirstAccepting(s, fmts[1..], i - 1);
      FirstFormat(s, fmts[1..])
  }

  /** How the loop over keys ends: a date-time, every key passed over, or a `TypeError`
      that escapes the inner handlers and abandons the whole lookup. */
  datatype KeyOutcome = Found(dt: DateTime) | Exhausted | Aborted

  /** The loop moves past `key`: it is absent, or its text fits none of the formats. */
  predicate PassedOver(tags: map<string, TagValue>, key: string) {
    key !in tags || (tags[key].TextValue? && FirstFormat(tags[key].text, VideoFormats).None?)
  }

  /** Key `k` is the first one the loop does not move past. */
  predicate IsDecisiveKey(tags: map<string, TagValue>, keys: seq<string>, k: int) {
    0 <= k < |keys| && !PassedOver(tags, keys[k]) && forall j :: 0 <= j < k ==> PassedOver(tags, keys[j])
  }

  function KeyVerdict(v: TagValue): KeyOutcome {
    if v.OtherValue? then Aborted
    else match FirstFormat(v.text, VideoFormats)
      case Some(dt) => Found(dt)
      case None => Exhausted
  }

  /** The loop over keys: keys are tried in order, and each present key with text is tried
      under every format before the next key is looked at. */
  function TryKeys(tags: map<string, TagValue>, keys: seq<string>): (r: KeyOutcome)
    ensures forall k :: IsDecisiveKey(tags, keys, k) ==> r == KeyVerdict(tags[keys[k]])
    ensures (forall k :: 0 <= k < |keys| ==> PassedOver(tags, keys[k])) ==> r == Exhausted
    decreases |keys|
  {
    if keys == [] then Exhausted
    else if PassedOver(tags, keys[0]) then
      assert forall k :: IsDecisiveKey(tags, keys, k) ==> IsDecisiveKey(tags, keys[1..], k - 1);
      TryKeys(tags, keys[1..])
    else KeyVerdict(tags[keys[0]])
  }

  /** `get_video_datetime`, without its source label; `probe` is `None` when `ffprobe` fails,
      exits with a non-zero status, prints malformed JSON or reports no `format.tags`. */
  function VideoDateTime(probe: Option<map<string, TagValue>>): Option<DateTime> {
    match probe
    case None => None
    case Some(tags) =>
      match TryKeys(tags, VideoKeys)
      case Found(dt) => Some(dt)
      case _ => None
  }

  // ---------------------------------------------------------------------------------------
  // The file system fallback and the dispatch.

  /** What `file_path.stat()` gives: a failure, or the birth time where the platform has
      one and the modification time, as POSIX timestamps. */
  datatype FileStat = StatFailed | Stat(birthtime: Option<real>, mtime: real)

  /** `getattr(stat, 'st_birthtime', None) or stat.st_mtime`: a missing birth time, and also
      a birth time of exactly zero, fall back to the modification time. */
  function StatTimestamp(st: FileStat): real
    requires st.Stat?
  {
    if st.birthtime.Some? && st.birthtime.value != 0.0 then st.birthtime.value else st.mtime
  }

  /** The source labels shown in the preview. */
  datatype Source = Exif | Metadata | FileSystem | CurrentTime

  function SourceLabel(src: Source): string {
    match src
    case Exif => "EXIF"
    case Metadata => "Metadata"
    case FileSystem => "File System"
    case CurrentTime => "Current Time"
  }

  /** The preview's source column tells the four sources apart. */
  lemma SourceLabelInjective(a: Source, b: Source)
    requires SourceLabel(a) == SourceLabel(b)
    ensures a == b
  {
  }

  datatype Resolved = Resolved(dt: DateTime, source: Source)

  /** `get_file_datetime`. `fromTimestamp` is `datetime.fromtimestamp` (local time; `None`
      where it raises) and `now` is what `datetime.now()` reads. */
  function FileDateTime(st: FileStat, fromTimestamp: real -> Option<DateTime>, now: DateTime): (r: Resolved)
    ensures r.source == FileSystem || r.source == CurrentTime
    ensures r.source == FileSystem <==> st.Stat? && fromTimestamp(StatTimestamp(st)).Some?
    ensures r.source == FileSystem ==> fromTimestamp(StatTimestamp(st)) == Some(r.dt)
    ensures r.source == CurrentTime ==> r.dt == now
  {
    if st.Stat? && fromTimestamp(StatTimestamp(st)).Some? then Resolved(fromTimestamp(StatTimestamp(st)).value, FileSystem)
    else Resolved(now, CurrentTime)
  }

  /** Everything the outside world answers about one file while its preview is built. */
  datatype MediaFacts = MediaFacts(exif: Option<seq<ExifEntry>>, probe: Option<map<string, TagValue>>, stat: FileStat, now: DateTime)

  /** The metadata reader the suffix selects, if any. */
  function MetadataTime(name: string, facts: MediaFacts): Option<DateTime> {
    if IsImage(name) then ImageDateTime(facts.exif)
    else if IsVideo(name) then VideoDateTime(facts.probe)
    else None
  }

  /** The dispatch in `preview_changes`: EXIF for an image suffix, container tags for a video
      suffix, then the file system, then the clock. Each source is used exactly when every
      source before it has nothing. */
  function Resolve(name: string, facts: MediaFacts, fromTimestamp: real -> Option<DateTime>): (r: Resolved)
    ensures r.source == Exif <==> IsImage(name) && ImageDateTime(facts.exif).Some?
    ensures r.source == Exif ==> ImageDateTime(facts.exif) == Some(r.dt)
    ensures r.source == Metadata <==> IsVideo(name) && VideoDateTime(facts.probe).Some?
    ensures r.source == Metadata ==> VideoDateTime(facts.probe) == Some(r.dt)
    ensures r.source == FileSystem <==>
              MetadataTime(name, facts).None? && facts.stat.Stat? && fromTimestamp(StatTimestamp(facts.stat)).Some?
    ensures r.source == FileSystem ==> fromTimestamp(StatTimestamp(facts.stat)) == Some(r.dt)
    ensures r.source == CurrentTime <==>
              MetadataTime(name, facts).None? && (facts.stat.StatFailed? || fromTimestamp(StatTimestamp(facts.stat)).None?)
    ensures r.source == CurrentTime ==> r.dt == facts.now
  {
    MediaKindsPartition(name);
    match MetadataTime(name, facts)
    case Some(dt) => Resolved(dt, if IsImage(name) then Exif else Metadata)
    case None => FileDateTime(facts.stat, fromTimestamp, facts.now)
  }

  // ---------------------------------------------------------------------------------------
  // Metadata written in the canonical layouts is read back exactly.

  /** An image whose first capture-time tag holds `dt` in EXIF layout resolves to `dt`
      from EXIF, whatever the file system says. */
  lemma ExifStampWins(name: string, facts: MediaFacts, fromTimestamp: real -> Option<DateTime>, i: nat, dt: DateTime)
    requires IsImage(name) && dt.microsecond == 0
    requires facts.exif.Some? && IsFirstDateTag(facts.exif.value, i)
    requires facts.exif.value[i].1 == TextValue(Render(dt, ExifFormat))
    ensures Resolve(name, facts, fromTimestamp) == Resolved(dt, Exif)
  {
    KnownFormatsRoundTrip(dt);
  }

  /** A stamp written out in one of the three layouts is read back by the format loop, and
      the layouts tried before it reject it. */
  lemma RenderedVideoStamp(dt: DateTime, fmt: nat)
    requires fmt < 3 && (fmt == 0 || dt.microsecond == 0)
    ensures FirstFormat(Render(dt, VideoFormats[fmt]), VideoFormats) == Some(dt)
  {
    var s := Render(dt, VideoFormats[fmt]);
    KnownFormatsRoundTrip(dt);
    VideoFormatsExclusive(s);
    assert Parse(s, VideoFormats[fmt]) == Some(dt);
    assert IsFirstAccepting(s, VideoFormats, fmt);
  }

  /** A video whose first present key holds `dt` in any of the three layouts resolves to
      `dt` from the container metadata. */
  lemma VideoStampWins(name: string, facts: MediaFacts, fromTimestamp: real -> Option<DateTime>, k: nat, fmt: nat, dt: DateTime)
    requires IsVideo(name) && fmt < 3 && (fmt == 0 || dt.microsecond == 0)
    requires facts.probe.Some? && k < |VideoKeys|
    requires forall j :: 0 <= j < k ==> VideoKeys[j] !in facts.probe.value
    requires VideoKeys[k] in facts.probe.value
    requires facts.probe.value[VideoKeys[k]] == TextValue(Render(dt, VideoFormats[fmt]))
    ensures Resolve(name, facts, fromTimestamp) == Resolved(dt, Metadata)
  {
    var tags := facts.probe.value;
    RenderedVideoStamp(dt, fmt);
    assert IsDecisiveKey(tags, VideoKeys, k);
    assert TryKeys(tags, VideoKeys) == Found(dt);
    MediaKindsPartition(name);
  }
}

# PAVO file organizer — the renaming core in Dafny

PAVO is a small desktop tool (`main.py`) that renames the photos and videos of one folder. A
rename gives each file a user-chosen label, the date-time it was taken and its original suffix,
for example `Trip_05-03-24_14.30.00.jpg`. This project models everything the tool does apart from
its window, within the limits listed under "## Left out", and proves properties of that model:

- **Labels.** The label is stripped of surrounding whitespace, then cleaned of the nine
  characters of the class `[<>:"/\\|?*]` (`Sanitizer`, with `Text.Strip`).
- **Scanning.** A scan keeps the regular files whose lower-cased suffix is on the image or
  video allow-list. It removes duplicates and sorts the result (`Scanner`).
- **Dates and times.** The date-time of a file comes from a fixed precedence chain:
  - EXIF capture-time tags for images;
  - container tags, as reported by `ffprobe`, for videos;
  - then the file system's birth or modification time;
  - then the clock.

  The four layouts the tool parses are read by a model of `datetime.strptime` (`DateTimes`,
  `Resolver`).
- **New names.** The label, an underscore, the stamp `%d-%m-%y_%H.%M.%S` and the original
  suffix (`Naming`).
- **Applying.** Renaming works like this (`Executor`):
  - a write-permission probe runs first and can abandon the whole batch;
  - the rows are then renamed one by one, in order;
  - a missing source becomes one error line and the batch goes on;
  - a taken target name gets `_1`, `_2`, … before its suffix;
  - there is one success counter and one error counter;
  - the error report shows at most ten lines plus a count of the rest.
- **State.** The object's state, `files_to_rename` and `preview_data`, is the class
  `Organizer.FileOrganizer`. Its methods `ScanFiles`, `PreviewChanges`, `ApplyChanges` and
  `ClearAll` update that state as the source's button handlers do.

What the outside world answers comes in as parameters:

- the directory listing;
- the EXIF tag list;
- `ffprobe`'s tags;
- `os.stat`;
- `datetime.fromtimestamp` and `datetime.now`;
- the user's confirmation;
- the outcome of the permission probe;
- the operating system's answer to each rename.

A folder is the set of the names it holds.

Behaviour of the code worth knowing, all of it followed by the model:

- **Blank label after sanitizing.** A label that becomes empty only after sanitizing (such as
  `"***"`) is accepted. The code checks `strip()` before sanitizing, so the new names then start
  with `_`.
- **Video keys.** A present key whose value fits no layout does not end the video lookup: the
  next key is tried. A value that is not text makes `strptime` raise `TypeError`, which aborts
  the lookup.
- **Zero birth time.** A birth time of exactly `0` counts as missing, because of the `or`, so the
  modification time is used.
- **`Current Time` source.** This source is used when `os.stat` fails and also when
  `datetime.fromtimestamp` fails.
- **Stale preview.** A new scan does not discard an earlier preview, so `apply_changes` works on
  the old preview rows.
- **Name already taken by its own file.** A file whose proposed name equals its current name (a
  file renamed before, previewed again) counts as a collision and gets `_1`.
- **Probe left behind.** When the probe file is written but cannot be deleted, the batch is
  abandoned and the probe file stays in the folder.

## Model

| member | source | states |
|---|---|---|
| Text.Strip | main.py:199-203 | `strip()`: the result is a slice of the input obtained by cutting only whitespace from both ends; it neither starts nor ends with whitespace; it is empty exactly when the input is all whitespace |
| Text.Lower | main.py:118 | `lower()` keeps the length, leaves no ASCII capital, turns each capital into its small letter, turns KELVIN SIGN into `k`, and keeps every other character |
| Text.LowerIgnoresAsciiCase | main.py:118 | strings that differ only in the case of ASCII letters lower to the same string |
| Text.LowerIdempotent | main.py:118 | lowering twice is lowering once |
| Text.NatToString | main.py:294 | `str(n)` is a non-empty digit string without a leading zero unless n is 0 |
| Text.NatToStringRoundTrip | main.py:294 | reading the digits of `str(n)` gives n back |
| Text.NatToStringInjective | main.py:294 | different counters are written differently |
| Text.PadDigits | main.py:229 | `%02d`-style fields have exactly the requested width and only digits |
| Text.PadDigitsRoundTrip | main.py:229 | a zero-padded field reads back as its number when the number fits the width |
| Text.Join | main.py:323 | `"\n".join(lines)`; no contract of its own — see SplitJoinRoundTrip and JoinSnoc |
| Text.SplitLines | main.py:323 | not code of the tool: Python's `split("\n")`, the inverse of the join at this line, used to state ErrorDetailsLines; it never returns an empty list |
| Text.SplitJoinRoundTrip | main.py:323 | `"\n".join` of newline-free lines split at newlines gives the lines back |
| Text.JoinSnoc | main.py:323-325 | appending `"\n" + line` to a join is joining one more line |
| Text.Below | main.py:122 | `<` on `str`, the order `sorted` uses; no contract of its own — see BelowIrreflexive, BelowTransitive, BelowTotal and BelowAsymmetric |
| Text.BelowIrreflexive | main.py:122 | the ordering `sorted` uses never puts a name before itself |
| Text.BelowTransitive | main.py:122 | that ordering is transitive |
| Text.BelowTotal | main.py:122 | any two different names are ordered one way or the other |
| Text.BelowAsymmetric | main.py:122 | two names are never ordered both ways |
| Paths.LastDot | main.py:118 | the index found is a dot, and no dot follows it |
| Paths.Suffix | main.py:118 | pathlib's `suffix`; no contract of its own — its shape is stated by StemSuffixSplit and SuffixOfAppended |
| Paths.Stem | main.py:291 | pathlib's `stem`; no contract of its own — stated together with the suffix by StemSuffixSplit and SuffixOfAppended |
| Paths.StemSuffixSplit | main.py:291-292 | a name is its `stem` followed by its `suffix`, and a non-empty suffix is a dot followed by dot-free text |
| Paths.SuffixOfAppended | main.py:230 | appending a suffix to a non-empty name makes it the suffix and the name the stem, whatever dots the name holds |
| Sanitizer.IsForbidden | main.py:191 | the class `[<>:"/\\\|?*]`; no contract of its own — see Sanitize |
| Sanitizer.Sanitize | main.py:188-192 | the result has no forbidden character, keeps the order of the input, and keeps every allowed character as often as the input has it |
| Sanitizer.SubsequenceMultiset | main.py:188-192 | deleting characters never adds any |
| Sanitizer.SanitizeUnique | main.py:188-192 | those three properties determine the result completely |
| Sanitizer.SanitizeKeepsClean | main.py:188-192 | a label without forbidden characters is left unchanged |
| Sanitizer.SanitizeIdempotent | main.py:188-192 | sanitizing twice equals sanitizing once |
| Scanner.IsImage | main.py:220 | `file_path.suffix.lower() in self.image_extensions`; no contract of its own — see MediaKindsPartition, KindIgnoresCase and Resolve |
| Scanner.IsVideo | main.py:222 | `file_path.suffix.lower() in self.video_extensions`; no contract of its own — see MediaKindsPartition, KindIgnoresCase and Resolve |
| Scanner.IsSupported | main.py:118 | `suffix.lower() in supported_extensions`; no contract of its own — see MediaKindsPartition and KindIgnoresCase |
| Scanner.MediaKindsPartition | main.py:25-27 | no suffix is both an image and a video suffix, and a supported suffix is one of the two |
| Scanner.KindIgnoresCase | main.py:118 | names whose suffixes differ only in the case of ASCII letters are of the same kind and supported alike |
| Scanner.UpperCaseSuffixes | main.py:118 | `a.JPG` is an image and `clip.MoV` a video |
| Scanner.WantedNames | main.py:114-119 | the filtered names are never more than the entries |
| Scanner.CollectedHasSource | main.py:115-119 | every collected name comes from a regular file with a supported suffix |
| Scanner.SourceIsCollected | main.py:115-119 | every regular file with a supported suffix is collected |
| Scanner.CollectSupported | main.py:114-119 | the loop collects the wanted names in listing order, and a name is collected exactly when a wanted entry carries it |
| Scanner.Insert | main.py:122 | inserting into a strictly sorted list keeps it strictly sorted and adds exactly the new element |
| Scanner.SortedDistinct | main.py:122 | `sorted(set(xs))` is strictly sorted (so without repetitions) and has exactly the elements of xs |
| Scanner.SameElementsEmpty | main.py:122 | lists with the same elements are both empty or both not |
| Scanner.StrictlySortedUnique | main.py:122 | a strictly sorted list is determined by its elements |
| DateTimes.DigitRun | main.py:167 | the longest run of digits at the front; `%f` accepts it when it is 1–6 digits long, which agrees with the regular expression `[0-9]{1,6}` because a non-digit (`Z`) follows |
| DateTimes.SpaceRun | main.py:143 | `\s+` reads the longest run of whitespace at the front |
| DateTimes.Consume | main.py:143 | each directive of `strptime` reads at least one character from the front and leaves a suffix of the input; what it reads back is stated by ConsumeRendered |
| DateTimes.Scan | main.py:143 | `strptime`'s match from the start: every directive consumes at least one character, and what is left is a suffix of the input; see ScanRendered and ScanAppend |
| DateTimes.Parse | main.py:143 | `datetime.strptime`: a string that parses is at least as long as the format; its behaviour is stated by ParseRendered, KnownFormatsRoundTrip and VideoFormatsExclusive |
| DateTimes.ConsumeRendered | main.py:143 | each directive reads back exactly its own canonical rendering |
| DateTimes.ScanRendered | main.py:143 | a whole canonical rendering is matched to its end, and the fields the directives fill are the date-time's own |
| DateTimes.FilledFields | main.py:143 | which directive decides each field of the parsed record, with `%y` mapping 69–99 to the 1900s and 00–68 to the 2000s |
| DateTimes.ParseRendered | main.py:143 | `strptime` reads a rendering back to the same date-time when the format fixes every field |
| DateTimes.KnownFormatsRoundTrip | main.py:143-169 | the EXIF layout and the three video layouts all read their renderings back (microseconds only through `%f`) |
| DateTimes.ScanAppend | main.py:167 | matching a concatenated format is matching its parts in turn |
| DateTimes.SharedPrefix | main.py:167 | two formats with a common beginning that both match reach one and the same remainder |
| DateTimes.VideoFormatsExclusive | main.py:167-171 | no string matches two of the three video layouts, so their order never changes the date-time found |
| Resolver.ImageDateTime | main.py:136-146 | `get_image_datetime` without its label; no contract of its own — the tag loop is FromExifTags, and the result as the dispatch uses it is stated by Resolve and ExifStampWins |
| Resolver.ExifValueTime | main.py:143-145 | `datetime.strptime(value, '%Y:%m:%d %H:%M:%S')` with its `ValueError` and `TypeError` swallowed; no contract of its own — see FromExifTags and ExifStampWins |
| Resolver.FromExifTags | main.py:140-146 | the first capture-time tag in iteration order decides, whether or not it parses; with no such tag there is no result |
| Resolver.FirstFormat | main.py:167-171 | the first layout that accepts the value gives the result; none accepting gives none |
| Resolver.PassedOver | main.py:163-173 | the key loop moves on when the key is absent or its text fits no layout; no contract of its own — see TryKeys |
| Resolver.KeyVerdict | main.py:163-173 | a present key with text gives the first layout's date-time or lets the loop go on, and a non-text value aborts the lookup; no contract of its own — see TryKeys and VideoStampWins |
| Resolver.TryKeys | main.py:160-176 | the first key that is present and not passed over decides; a non-text value aborts; when every key is passed over the lookup is exhausted |
| Resolver.VideoDateTime | main.py:150-176 | `get_video_datetime` without its label; no contract of its own — the key loop is TryKeys, and the result as the dispatch uses it is stated by Resolve and VideoStampWins |
| Resolver.StatTimestamp | main.py:183 | `getattr(stat, 'st_birthtime', None) or stat.st_mtime`; no contract of its own — used in the contract of FileDateTime |
| Resolver.FileDateTime | main.py:178-186 | `File System` exactly when `stat` works and `fromtimestamp` of the birth time, or otherwise the modification time, works; otherwise the current time |
| Resolver.MetadataTime | main.py:220-223 | the reader the suffix selects; no contract of its own — see Resolve |
| Resolver.SourceLabel | main.py:143 | the label strings `'EXIF'`, `'Metadata'` (line 169), `'File System'` (line 184) and `'Current Time'` (line 186); no contract of its own — see SourceLabelInjective |
| Resolver.SourceLabelInjective | main.py:143 | the four source labels shown in the preview are pairwise different |
| Resolver.Resolve | main.py:220-226 | each source is used exactly when every source before it has nothing, and each gives its own date-time |
| Resolver.ExifStampWins | main.py:140-143 | an image whose first capture-time tag holds a date-time in EXIF layout resolves to it from EXIF, whatever the file system says |
| Resolver.RenderedVideoStamp | main.py:167-171 | a date-time written in any of the three video layouts is read back by the format loop |
| Resolver.VideoStampWins | main.py:162-169 | a video whose first present key holds a date-time in any of the three layouts resolves to it from the container metadata |
| Naming.Stamp | main.py:229 | `dt.strftime('%d-%m-%y_%H.%M.%S')`; no contract of its own — see StampIsRendering, StampReadsBack and TripExample |
| Naming.StampIsRendering | main.py:229 | the stamp is the rendering of the date-time under `%d-%m-%y_%H.%M.%S` |
| Naming.StampReadsBack | main.py:229 | within 1969–2068 and without microseconds, parsing the stamp with the same format gives the date-time back |
| Naming.NewName | main.py:230 | the f-string of the new name; no contract of its own — see NewNameParts and TripExample |
| Naming.NewNameParts | main.py:230 | the new name keeps the file's suffix, so it stays supported and of the same kind, and its stem is label, underscore and stamp |
| Naming.PreviewFor | main.py:217-238 | the loop body for one file: resolve, then compose the name; no contract of its own — see Resolve and PreviewRowsKeepParts |
| Naming.MapSeqSnoc | main.py:233-238 | mapping one more element appends its image |
| Naming.PreviewRows | main.py:212-238 | one preview row per scanned file, in order, each built from its own file |
| Naming.PreviewRowsKeepParts | main.py:229-230 | every new name of the preview keeps its file's suffix and has label, underscore and stamp as stem |
| Naming.TripExample | main.py:229-230 | label `Trip`, `.jpg`, 2024-03-05 14:30:00 give the stamp `05-03-24_14.30.00` and the name `Trip_05-03-24_14.30.00.jpg` |
| Executor.Candidate | main.py:294 | `f"{base_name}_{counter}{extension}"`; no contract of its own — see CandidateParts and CandidateInjective |
| Executor.CandidateParts | main.py:291-294 | a candidate keeps the proposed suffix and has the proposed stem, `_` and the counter as stem, so suffixes never pile up |
| Executor.CandidateInjective | main.py:294 | different counters give different candidate names |
| Executor.FirstFreeFrom | main.py:293-296 | the counter found is free and every counter tried before it is taken |
| Executor.FirstFreeUnique | main.py:290-296 | there is only one smallest free counter |
| Executor.FreeNameFor | main.py:288-296 | the target is free; a free proposed name is kept; otherwise it is the proposed stem, `_`, the smallest free counter of at least 1, and the proposed suffix |
| Executor.FreeName | main.py:288-296 | the `while new_path.exists()` loop ends with exactly that name |
| Executor.CollisionExample | main.py:288-296 | with the proposed name and its `_1` variant taken, the file goes to `_2` |
| Executor.Step | main.py:277-315 | one pass of the loop body; no contract of its own — its effect is stated by StepEffect |
| Executor.Run | main.py:273-315 | the loop over the rows in order; no contract of its own — see RunAccounting, RunAppend, MissingSourceSkipped and RenameAll |
| Executor.Contains | main.py:308 | `"being used by another process" in str(e)`; no contract of its own — used by Reason |
| Executor.Reason | main.py:302-315 | the text after the file's name in an error line; no contract of its own — it is the classification of a failed rename that Step records |
| Executor.StepEffect | main.py:277-315 | a row either succeeds, renaming one name to a free one, or adds exactly one error line and leaves the folder alone |
| Executor.RunAccounting | main.py:257-315 | over a batch, successes plus errors equal the rows, the error counter equals the error lines, and no name is lost |
| Executor.RunAppend | main.py:273 | processing a batch in two parts is processing it at once |
| Executor.MissingSourceSkipped | main.py:282-285 | a row whose source is gone adds one `Source file not found` line and the later rows go on as if it were absent |
| Executor.RenameAll | main.py:257-315 | the loop ends with the counters, error lines and folder of the batch, successes plus errors equal the rows, and errors equal the error lines |
| Executor.MoreErrorsLine | main.py:325 | the overflow line `... and N more errors`; no contract of its own — see ErrorDetailsLines |
| Executor.ErrorDetails | main.py:323-325 | `error_details`; no contract of its own — see ErrorDetailsLines |
| Executor.ErrorDetailsLines | main.py:323-325 | the report's lines are the error lines when there are at most ten, else the first ten and `... and N more errors` with N the rest |
| Organizer.ReportOf | main.py:320-330 | the dialog chosen by the counters; no contract of its own — used in the contract of ApplyChanges |
| Organizer.FileOrganizer.constructor | main.py:21-22 | both lists start empty |
| Organizer.FileOrganizer.ScanFiles | main.py:100-122 | a missing folder field or folder keeps the state; an unlistable folder empties the list; otherwise the list holds exactly the wanted names, sorted and without repetition, and the preview is untouched |
| Organizer.FileOrganizer.PreviewChanges | main.py:194-238 | without files or a label nothing changes; otherwise the preview is one row per scanned file under the stripped, sanitized label |
| Organizer.FileOrganizer.ApplyChanges | main.py:246-333 | without a preview, a confirmation or a writable folder nothing is renamed and the state is kept; otherwise the batch runs, its report is built from its counters, and the state is cleared |
| Organizer.FileOrganizer.ClearAll | main.py:335-338 | both lists are emptied |

## Left out

- The window, tree view, progress bar, status line and dialogs, and `main`: they only display
  what the core computes. Dialog texts are kept only as the error messages of the guards.
- PIL's `_getexif`, the `ffprobe` process and `json.loads`: their results are inputs (a tag list
  in iteration order, a tag map, or failure). A process that hangs is not modelled.
- `os.stat`, `datetime.fromtimestamp` and `datetime.now`: these are inputs. Timestamps are
  `real`; floating-point rounding is not modelled.
- Real renames, `write_text` and `unlink`: a folder is a set of names, the permission probe is
  one of three outcomes, and each rename's failure is an input that carries a reason. The text of
  the probe's exception is not kept in the report.
- Exceptions raised by `exists()` itself are not modelled. In the rename loop only the rename is
  allowed to fail. In `scan_files`, `folder_path.exists()` (main.py:106) can raise too, for example
  for a folder under a directory without search permission; the scan then ends before any
  message, and no listing outcome models that.
- The folder is assumed unchanged between scan, preview and apply: the names the loop sees are
  the given set. The source writes the permission probe into the folder named in the folder field
  at apply time, but renames each row in its own file's parent. After a new scan of another
  folder, with the old preview kept, those are two different folders. The model puts the probe and
  all renames into one folder, so it does not capture that case.
- File names are Dafny strings, whose characters are never lone surrogates. Names whose bytes
  Python decodes on POSIX to U+DC80–U+DCFF (surrogateescape) therefore cannot be written in the
  model.
- Case-insensitive file systems, and the case-insensitive path ordering of Windows: names are
  compared and ordered by code point, as on POSIX.
- `Text.Lower`: it lowers only ASCII capitals and the one non-ASCII character that lowers to an
  ASCII letter, so it differs from `str.lower()` on other characters. A suffix containing such
  a character is not on the allow-list either way.
- `strptime`: decimal digits other than ASCII (which Python's `\d` accepts) and locale effects
  are not modelled. Only the directives the tool uses are present.
- `Executor.ErrorDetailsLines`: it states the line structure of the report only for error lines
  without newlines. That excludes an operating-system message containing a newline. Every error
  line starts with the file's name (main.py:283, 304, 309, 311, 315), so it also excludes a POSIX
  file name that contains a newline.
- `Naming.StampReadsBack`: it is stated only for 1969–2068, since `%y` cannot tell centuries
  apart, and without microseconds, which the stamp drops.
- Grouping by date, session or type and moving files into folders: the code contains no such
  operations.

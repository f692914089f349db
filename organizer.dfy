/** The state the application keeps between button presses, `files_to_rename` and
    `preview_data`, and the four operations that change it. The window, its entry fields and
    its dialogs are outside the model: what they answer comes in as parameters. */
module Organizer {
  import opened Wrappers
  import opened Text
  import opened Sanitizer
  import opened Scanner
  import opened DateTimes
  import opened Resolver
  import opened Naming
  import opened Executor

  const SelectFolderMessage: string := "Please select a source folder"
  const MissingFolderMessage: string := "Selected folder does not exist"
  const ScanFirstMessage: string := "Please scan files first"
  const NameFirstMessage: string := "Please enter a custom name"
  const PreviewFirstMessage: string := "Please generate preview first"

  /** The file the permission check writes and deletes again. */
  const ProbeFileName: string := "test_write_permissions.tmp"

  /** What the file system says about the chosen folder: it does not exist, listing it
      raises (it is a file, or unreadable), or its children. */
  datatype Listing = NoSuchFolder | Unlistable | Entries(entries: seq<DirEntry>)

  /** How a scan or a preview ends: done, stopped with an error dialog, or with an exception
      that escapes the handler. */
  datatype Outcome = Done | Refused(message: string) | Crashed

  /** How the permission check goes: writing the probe file fails, deleting it fails, or both
      succeed. */
  datatype Probe = WriteFails | DeleteFails | Writable

  /** How `apply_changes` ends. */
  datatype Report =
    | Rejected(message: string)
    | Declined
    | CannotWrite
    | AllRenamed(count: nat)
    | PartlyRenamed(successes: nat, failures: nat, details: string)

  /** The report of a batch that ran. */
  function ReportOf(t: Tally): Report {
    if t.failures == 0 then AllRenamed(t.successes) else PartlyRenamed(t.successes, t.failures, ErrorDetails(t.errors))
  }

  class FileOrganizer {
    var filesToRename: seq<string>
    var previewData: seq<PreviewItem>

    /** The scanned list is sorted, without repetitions, and holds only supported names. */
    predicate Valid()
      reads this
    {
      StrictlySorted(filesToRename) && forall k :: 0 <= k < |filesToRename| ==> IsSupported(filesToRename[k])
    }

    constructor ()
      ensures Valid()
      ensures filesToRename == [] && previewData == []
    {
      filesToRename := [];
      previewData := [];
    }

    /** `scan_files`. An empty folder field and a missing folder leave the state as it was;
      a folder that cannot be listed leaves the list empty. The preview is never touched, so
      an earlier preview survives a new scan. */
    method ScanFiles(sourceFolder: string, listing: Listing) returns (outcome: Outcome)
      requires Valid()
      modifies this
      ensures Valid()
      ensures previewData == old(previewData)
      ensures sourceFolder == [] ==> outcome == Refused(SelectFolderMessage) && filesToRename == old(filesToRename)
      ensures sourceFolder != [] && listing.NoSuchFolder? ==>
                outcome == Refused(MissingFolderMessage) && filesToRename == old(filesToRename)
      ensures sourceFolder != [] && listing.Unlistable? ==> outcome == Crashed && filesToRename == []
      ensures sourceFolder != [] && listing.Entries? ==>
                && outcome == Done
                && forall x :: x in filesToRename <==>
                     exists i :: 0 <= i < |listing.entries| && Wanted(listing.entries[i]) && listing.entries[i].name == x
    {
      if sourceFolder == [] {
        return Refused(SelectFolderMessage);
      }
      if listing.NoSuchFolder? {
        return Refused(MissingFolderMessage);
      }
      filesToRename := [];
      if listing.Unlistable? {
        return Crashed;
      }
      var allFiles := CollectSupported(listing.entries);
      filesToRename := SortedDistinct(allFiles);
      assert forall k :: 0 <= k < |filesToRename| ==> IsSupported(filesToRename[k]) by {
        forall k | 0 <= k < |filesToRename|
          ensures IsSupported(filesToRename[k])
        {
          assert filesToRename[k] in allFiles;
          var i :| 0 <= i < |listing.entries| && Wanted(listing.entries[i]) && listing.entries[i].name == filesToRename[k];
        }
      }
      outcome := Done;
    }

    /** `preview_changes`: with a scan and a label, the preview is `PreviewRows` of the
      scanned files under the cleaned label. `facts(name)` is what the outside world answers
      about the file while its row is built. */
    method PreviewChanges(customName: string, facts: string -> MediaFacts, fromTimestamp: real -> Option<DateTime>)
      returns (outcome: Outcome)
      requires Valid()
      modifies this
      ensures Valid()
      ensures filesToRename == old(filesToRename)
      ensures filesToRename == [] ==> outcome == Refused(ScanFirstMessage) && previewData == old(previewData)
      ensures filesToRename != [] && Strip(customName) == [] ==>
                outcome == Refused(NameFirstMessage) && previewData == old(previewData)
      ensures filesToRename != [] && Strip(customName) != [] ==>
                && outcome == Done
                && previewData == PreviewRows(Sanitize(Strip(customName)), filesToRename, facts, fromTimestamp)
    {
      if filesToRename == [] {
        return Refused(ScanFirstMessage);
      }
      if Strip(customName) == [] {
        return Refused(NameFirstMessage);
      }
      var prefix := Sanitize(Strip(customName));
      var files := filesToRename;
      previewData := [];
      for i := 0 to |files|
        invariant filesToRename == files
        invariant previewData == MapSeq(RowOf(prefix, facts, fromTimestamp), files[..i])
      {
        var filePath := files[i];
        MapSeqSnoc(RowOf(prefix, facts, fromTimestamp), files, i);
        previewData := previewData + [PreviewFor(prefix, filePath, facts(filePath), fromTimestamp)];
      }
      assert files[..|files|] == files;
      outcome := Done;
    }

    /** `apply_changes`, on the folder the scanned files live in. Without a preview, or
      without the user's `confirmed` answer, nothing happens; when the permission check fails
      the batch is abandoned before any rename and the state is kept; otherwise every row is
      processed and the state is cleared. */
    method ApplyChanges(confirmed: bool, probe: Probe, folder: set<string>, refuse: (string, string) -> Option<RenameError>)
      returns (report: Report, folderAfter: set<string>)
      requires Valid()
      modifies this
      ensures Valid()
      ensures old(previewData) == [] ==>
                report == Rejected(PreviewFirstMessage) && folderAfter == folder && unchanged(this)
      ensures old(previewData) != [] && !confirmed ==>
                report == Declined && folderAfter == folder && unchanged(this)
      ensures old(previewData) != [] && confirmed && probe.WriteFails? ==>
                report == CannotWrite && folderAfter == folder && unchanged(this)
      ensures old(previewData) != [] && confirmed && probe.DeleteFails? ==>
                report == CannotWrite && folderAfter == folder + {ProbeFileName} && unchanged(this)
      ensures old(previewData) != [] && confirmed && probe.Writable? ==>
                var t := Run(Tally(folder - {ProbeFileName}, 0, 0, []), old(previewData), refuse);
                && folderAfter == t.folder
                && report == ReportOf(t)
                && t.successes + t.failures == |old(previewData)|
                && |folderAfter| == |folder - {ProbeFileName}|
                && filesToRename == [] && previewData == []
    {
      if previewData == [] {
        return Rejected(PreviewFirstMessage), folder;
      }
      if !confirmed {
        return Declined, folder;
      }
      match probe
      case WriteFails =>
        return CannotWrite, folder;
      case DeleteFails =>
        return CannotWrite, folder + {ProbeFileName};
      case Writable =>
        var successCount, errorCount, errors, renamed := RenameAll(previewData, folder - {ProbeFileName}, refuse);
        report := if errorCount == 0 then AllRenamed(successCount) else PartlyRenamed(successCount, errorCount, ErrorDetails(errors));
        folderAfter := renamed;
        ClearAll();
    }

    /** `clear_all`. */
    method ClearAll()
      modifies this
      ensures Valid()
      ensures filesToRename == [] && previewData == []
    {
      filesToRename := [];
      previewData := [];
    }
  }
}

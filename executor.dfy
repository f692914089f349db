/** The rename loop of `apply_changes`: each preview row is renamed in turn inside one
    folder, a missing source or a refused rename is recorded as an error and the loop goes
    on, and a taken target name is made unique with `_1`, `_2`, ... before the suffix.
    The folder is the set of names it holds. */
module Executor {
  import opened Wrappers
  import opened Text
  import opened Paths
  import opened Naming

  // ---------------------------------------------------------------------------------------
  // Finding a free name.

  /** `f"{base_name}_{counter}{extension}"` */
  function Candidate(stem: string, n: nat, ext: string): string {
    stem + "_" + NatToString(n) + ext
  }

  /** A candidate keeps the proposed suffix, and its stem is the proposed stem with `_` and
      the counter: suffixes never pile up. */
  lemma CandidateParts(stem: string, n: nat, ext: string)
    requires SuffixShaped(ext)
    ensures Suffix(Candidate(stem, n, ext)) == ext
    ensures Stem(Candidate(stem, n, ext)) == stem + "_" + NatToString(n)
  {
    SuffixOfAppended(stem + "_" + NatToString(n), ext);
  }

  /** Different counters give different names, because `str` is injective. */
  lemma CandidateInjective(stem: string, ext: string, a: nat, b: nat)
    requires Candidate(stem, a, ext) == Candidate(stem, b, ext)
    ensures a == b
  {
    var x, y := Candidate(stem, a, ext), Candidate(stem, b, ext);
    assert |NatToString(a)| == |NatToString(b)|;
    assert NatToString(a) == x[|stem| + 1..|x| - |ext|];
    assert NatToString(b) == y[|stem| + 1..|y| - |ext|];
    NatToStringInjective(a, b);
  }

  /** The first counter from `n` on whose candidate is free. Each candidate tried is taken,
      and removing it from `taken` bounds the search, since a finite folder cannot hold every
      candidate. */
  function FirstFreeFrom(taken: set<string>, stem: string, ext: string, n: nat): (m: nat)
    ensures m >= n
    ensures Candidate(stem, m, ext) !in taken
    ensures forall k :: n <= k < m ==> Candidate(stem, k, ext) in taken
    decreases taken
  {
    var c := Candidate(stem, n, ext);
    if c !in taken then n
    else
      var m := FirstFreeFrom(taken - {c}, stem, ext, n + 1);
      assert Candidate(stem, m, ext) != c by {
        if Candidate(stem, m, ext) == c {
          CandidateInjective(stem, ext, m, n);
        }
      }
      m
  }

  /** `n` is the smallest counter of at least 1 whose candidate is free. */
  predicate IsFirstFree(taken: set<string>, stem: string, ext: string, n: nat) {
    n >= 1 && Candidate(stem, n, ext) !in taken && forall k :: 1 <= k < n ==> Candidate(stem, k, ext) in taken
  }

  lemma FirstFreeUnique(taken: set<string>, stem: string, ext: string, a: nat, b: nat)
    requires IsFirstFree(taken, stem, ext, a) && IsFirstFree(taken, stem, ext, b)
    ensures a == b
  {
  }

  /** The name the rename goes to: the proposed one when it is free, else the proposed stem
      with the smallest free counter of at least 1 and the proposed suffix. */
  function FreeNameFor(taken: set<string>, proposed: string): (name: string)
    ensures name !in taken
    ensures proposed !in taken ==> name == proposed
    ensures proposed in taken ==>
              exists n :: IsFirstFree(taken, Stem(proposed), Suffix(proposed), n) && name == Candidate(Stem(proposed), n, Suffix(proposed))
  {
    if proposed !in taken then proposed
    else
      var n := FirstFreeFrom(taken, Stem(proposed), Suffix(proposed), 1);
      assert IsFirstFree(taken, Stem(proposed), Suffix(proposed), n);
      Candidate(Stem(proposed), n, Suffix(proposed))
  }

  /** The `if new_path.exists(): ... while new_path.exists(): ...` block. */
  method FreeName(taken: set<string>, proposed: string) returns (name: string)
    ensures name == FreeNameFor(taken, proposed)
  {
    name := proposed;
    if name in taken {
      var counter := 1;
      var baseName, extension := Stem(proposed), Suffix(proposed);
      ghost var bound := FirstFreeFrom(taken, baseName, extension, 1);
      while name in taken
        invariant 1 <= counter <= bound + 1
        invariant name == if counter == 1 then proposed else Candidate(baseName, counter - 1, extension)
        invariant forall k :: 1 <= k < counter - 1 ==> Candidate(baseName, k, extension) in taken
        decreases bound + 1 - counter
      {
        name := Candidate(baseName, counter, extension);
        counter := counter + 1;
      }
      assert IsFirstFree(taken, baseName, extension, counter - 1);
      assert IsFirstFree(taken, baseName, extension, bound);
      FirstFreeUnique(taken, baseName, extension, counter - 1, bound);
    }
  }

  /** Example (main.py:288-296): with the proposed name and its `_1` variant taken, the file
      goes to `_2`. */
  lemma CollisionExample(taken: set<string>, proposed: string)
    requires proposed in taken && Candidate(Stem(proposed), 1, Suffix(proposed)) in taken
    requires Candidate(Stem(proposed), 2, Suffix(proposed)) !in taken
    ensures FreeNameFor(taken, proposed) == Candidate(Stem(proposed), 2, Suffix(proposed))
  {
    assert IsFirstFree(taken, Stem(proposed), Suffix(proposed), 2);
    var n :| IsFirstFree(taken, Stem(proposed), Suffix(proposed), n) && FreeNameFor(taken, proposed) == Candidate(Stem(proposed), n, Suffix(proposed));
    FirstFreeUnique(taken, Stem(proposed), Suffix(proposed), n, 2);
  }

  // ---------------------------------------------------------------------------------------
  // One rename, and the batch.

  /** How `old_path.rename(new_path)` can fail. */
  datatype RenameError = PermissionDenied | OsError(text: string) | OtherError(text: string)

  predicate OccursAt(s: string, t: string, i: int) {
    0 <= i && i + |t| <= |s| && s[i..i + |t|] == t
  }

  /** `t in s` for strings. */
  predicate Contains(s: string, t: string) {
    exists i :: 0 <= i <= |s| && OccursAt(s, t, i)
  }

  /** What the error line says after the file's name. */
  function Reason(e: RenameError): string {
    match e
    case PermissionDenied => "Permission denied - file may be in use"
    case OsError(text) => if Contains(text, "being used by another process") then "File is open in another program" else text
    case OtherError(text) => text
  }

  /** The loop's state: the folder's names, the success and error counters, and the error
      lines. */
  datatype Tally = Tally(folder: set<string>, successes: nat, failures: nat, errors: seq<string>)

  /** One pass of the loop body. `refuse(old, new)` is what the operating system answers to
      the rename: `None` when it is carried out. */
  function Step(t: Tally, item: PreviewItem, refuse: (string, string) -> Option<RenameError>): Tally {
    if item.original !in t.folder then
      t.(failures := t.failures + 1, errors := t.errors + [item.original + ": Source file not found"])
    else
      var target := FreeNameFor(t.folder, item.newName);
      match refuse(item.original, target)
      case Some(e) => t.(failures := t.failures + 1, errors := t.errors + [item.original + ": " + Reason(e)])
      case None => t.(folder := t.folder - {item.original} + {target}, successes := t.successes + 1)
  }

  /** The loop over the rows, in order. */
  function Run(t: Tally, items: seq<PreviewItem>, refuse: (string, string) -> Option<RenameError>): Tally
    decreases |items|
  {
    if items == [] then t else Run(Step(t, items[0], refuse), items[1..], refuse)
  }

  /** Each row either succeeds, moving one name to a name that was free, or adds exactly one
      error line and leaves the folder alone; nothing is ever overwritten. */
  lemma StepEffect(t: Tally, item: PreviewItem, refuse: (string, string) -> Option<RenameError>)
    ensures var u := Step(t, item, refuse);
      && |u.folder| == |t.folder|
      && u.successes + u.failures == t.successes + t.failures + 1
      && u.failures - |u.errors| == t.failures - |t.errors|
      && (u.successes == t.successes + 1 <==> item.original in t.folder && refuse(item.original, FreeNameFor(t.folder, item.newName)).None?)
      && (u.successes == t.successes + 1 ==>
            u.errors == t.errors && u.folder == t.folder - {item.original} + {FreeNameFor(t.folder, item.newName)})
      && (u.successes == t.successes ==> u.folder == t.folder && |u.errors| == |t.errors| + 1 && u.errors[..|t.errors|] == t.errors)
  {
    var u := Step(t, item, refuse);
    if item.original in t.folder && refuse(item.original, FreeNameFor(t.folder, item.newName)).None? {
      var target := FreeNameFor(t.folder, item.newName);
      assert target != item.original;
      assert |t.folder - {item.original}| == |t.folder| - 1;
    } else {
      assert u.errors[..|t.errors|] == t.errors;
    }
  }

  /** Over the whole batch: every row is counted once, as a success or an error, the error
      counter always equals the number of error lines, and the folder holds as many names at
      the end as at the start. */
  lemma {:induction false} RunAccounting(t: Tally, items: seq<PreviewItem>, refuse: (string, string) -> Option<RenameError>)
    ensures Run(t, items, refuse).successes + Run(t, items, refuse).failures == t.successes + t.failures + |items|
    ensures Run(t, items, refuse).failures - |Run(t, items, refuse).errors| == t.failures - |t.errors|
    ensures |Run(t, items, refuse).folder| == |t.folder|
    decreases |items|
  {
    if items != [] {
      StepEffect(t, items[0], refuse);
      RunAccounting(Step(t, items[0], refuse), items[1..], refuse);
    }
  }

  /** Processing a batch in two parts is processing it at once: the loop has no other state. */
  lemma {:induction false} RunAppend(t: Tally, a: seq<PreviewItem>, b: seq<PreviewItem>, refuse: (string, string) -> Option<RenameError>)
    ensures Run(t, a + b, refuse) == Run(Run(t, a, refuse), b, refuse)
    decreases |a|
  {
    if a != [] {
      assert (a + b)[0] == a[0] && (a + b)[1..] == a[1..] + b;
      RunAppend(Step(t, a[0], refuse), a[1..], b, refuse);
    } else {
      assert a + b == b;
    }
  }

  /** A row whose source has gone adds one "Source file not found" line, changes nothing
      else, and the rows after it are processed as if it had not been there. */
  lemma MissingSourceSkipped(t: Tally, items: seq<PreviewItem>, k: nat, refuse: (string, string) -> Option<RenameError>)
    requires k < |items| && items[k].original !in Run(t, items[..k], refuse).folder
    ensures var before := Run(t, items[..k], refuse);
      Run(t, items, refuse) == Run(before.(failures := before.failures + 1, errors := before.errors + [items[k].original + ": Source file not found"]),
                                   items[k + 1..], refuse)
  {
    var before := Run(t, items[..k], refuse);
    assert items == items[..k] + ([items[k]] + items[k + 1..]);
    RunAppend(t, items[..k], [items[k]] + items[k + 1..], refuse);
    assert ([items[k]] + items[k + 1..])[1..] == items[k + 1..];
  }

  /** The loop itself, with its `success_count`, `error_count` and `errors`. */
  method RenameAll(items: seq<PreviewItem>, folder: set<string>, refuse: (string, string) -> Option<RenameError>)
    returns (successCount: nat, errorCount: nat, errors: seq<string>, folderAfter: set<string>)
    ensures Tally(folderAfter, successCount, errorCount, errors) == Run(Tally(folder, 0, 0, []), items, refuse)
    ensures successCount + errorCount == |items| && errorCount == |errors|
    ensures |folderAfter| == |folder|
  {
    successCount, errorCount, errors, folderAfter := 0, 0, [], folder;
    for i := 0 to |items|
      invariant Run(Tally(folderAfter, successCount, errorCount, errors), items[i..], refuse) == Run(Tally(folder, 0, 0, []), items, refuse)
    {
      var item := items[i];
      assert items[i..][0] == item && items[i..][1..] == items[i + 1..];
      if item.original !in folderAfter {
        errors := errors + [item.original + ": Source file not found"];
        errorCount := errorCount + 1;
        continue;
      }
      var newPath := FreeName(folderAfter, item.newName);
      var outcome := refuse(item.original, newPath);
      if outcome.Some? {
        errorCount := errorCount + 1;
        errors := errors + [item.original + ": " + Reason(outcome.value)];
      } else {
        folderAfter := folderAfter - {item.original} + {newPath};
        successCount := successCount + 1;
      }
    }
    assert items[|items|..] == [];
    RunAccounting(Tally(folder, 0, 0, []), items, refuse);
  }

  // ---------------------------------------------------------------------------------------
  // The report.

  const ErrorsShown: nat := 10

  function MoreErrorsLine(hidden: nat): string {
    "... and " + NatToString(hidden) + " more errors"
  }

  /** `error_details`: the first ten error lines, and a count of the rest when there are more. */
  function ErrorDetails(errors: seq<string>): string {
    if |errors| <= ErrorsShown then Join(errors)
    else Join(errors[..ErrorsShown]) + "\n" + MoreErrorsLine(|errors| - ErrorsShown)
  }

  lemma DigitsHaveNoNewline(s: string)
    requires AllDigits(s)
    ensures NoNewline(s)
  {
  }

  /** Read line by line, the details are the error lines themselves when there are at most
      ten of them, and otherwise the first ten followed by one line counting the rest. */
  lemma ErrorDetailsLines(errors: seq<string>)
    requires |errors| >= 1 && forall i :: 0 <= i < |errors| ==> NoNewline(errors[i])
    ensures |errors| <= ErrorsShown ==> SplitLines(ErrorDetails(errors)) == errors
    ensures |errors| > ErrorsShown ==>
              SplitLines(ErrorDetails(errors)) == errors[..ErrorsShown] + [MoreErrorsLine(|errors| - ErrorsShown)]
  {
    if |errors| <= ErrorsShown {
      SplitJoinRoundTrip(errors);
    } else {
      var shown := errors[..ErrorsShown];
      var last := MoreErrorsLine(|errors| - ErrorsShown);
      DigitsHaveNoNewline(NatToString(|errors| - ErrorsShown));
      assert NoNewline(last);
      JoinSnoc(shown, last);
      SplitJoinRoundTrip(shown + [last]);
    }
  }
}

/** `scan_files`: the directory listing filtered by the extension allow-list, then made
    duplicate-free and sorted (`sorted(list(set(all_files)))`). All entries share one parent
    directory, so ordering paths is ordering their names. */
module Scanner {
  import opened Text
  import opened Paths

  const ImageExtensions: set<string> := {".jpg", ".jpeg", ".png", ".tiff", ".bmp", ".gif"}
  const VideoExtensions: set<string> := {".mp4", ".mov", ".avi", ".mkv", ".wmv", ".flv", ".webm"}
  const SupportedExtensions: set<string> := ImageExtensions + VideoExtensions

  /** `file_path.suffix.lower() in ...` */
  predicate IsImage(name: string) {
    Lower(Suffix(name)) in ImageExtensions
  }

  predicate IsVideo(name: string) {
    Lower(Suffix(name)) in VideoExtensions
  }

  predicate IsSupported(name: string) {
    Lower(Suffix(name)) in SupportedExtensions
  }

  /** No extension is on both lists, so the order of the image and video tests in the
      timestamp dispatch cannot matter, and a supported name is one or the other. */
  lemma MediaKindsPartition(name: string)
    ensures !(IsImage(name) && IsVideo(name))
    ensures IsSupported(name) <==> IsImage(name) || IsVideo(name)
  {
  }

  /** The allow-lists are case-insensitive: two names whose suffixes differ only in the case
      of ASCII letters are of the same kind. */
  lemma KindIgnoresCase(a: string, b: string)
    requires |Suffix(a)| == |Suffix(b)|
    requires forall k :: 0 <= k < |Suffix(a)| ==> SameIgnoringAsciiCase(Suffix(a)[k], Suffix(b)[k])
    ensures IsImage(a) <==> IsImage(b)
    ensures IsVideo(a) <==> IsVideo(b)
    ensures IsSupported(a) <==> IsSupported(b)
  {
    LowerIgnoresAsciiCase(Suffix(a), Suffix(b));
  }

  /** Upper- and mixed-case suffixes are recognised. */
  lemma UpperCaseSuffixes()
    ensures IsImage("a.JPG") && IsVideo("clip.MoV")
  {
    JpgUpper();
    MovMixed();
  }

  lemma JpgUpper()
    ensures IsImage("a.JPG")
  {
    var suf := ".JPG";
    assert SuffixShaped(suf);
    SuffixOfAppended("a", suf);
    assert "a" + suf == "a.JPG";
    var low := Lower(suf);
    assert low[0] == '.' && low[1] == 'j' && low[2] == 'p' && low[3] == 'g';
    assert low == ".jpg";
  }

  lemma MovMixed()
    ensures IsVideo("clip.MoV")
  {
    var suf := ".MoV";
    assert SuffixShaped(suf);
    SuffixOfAppended("clip", suf);
    assert "clip" + suf == "clip.MoV";
    var low := Lower(suf);
    assert low[0] == '.' && low[1] == 'm' && low[2] == 'o' && low[3] == 'v';
    assert low == ".mov";
  }

  /** One child of the scanned directory, as `iterdir()` yields it; `isFile` is what
      `is_file()` answers for it. */
  datatype DirEntry = DirEntry(name: string, isFile: bool)

  predicate Wanted(e: DirEntry) {
    e.isFile && IsSupported(e.name)
  }

  /** The names of the wanted entries, in listing order. */
  function WantedNames(entries: seq<DirEntry>): (names: seq<string>)
    ensures |names| <= |entries|
    decreases |entries|
  {
    if entries == [] then []
    else
      var front := WantedNames(entries[..|entries| - 1]);
      var last := entries[|entries| - 1];
      if Wanted(last) then front + [last.name] else front
  }

  /** Every collected name comes from a wanted entry. */
  lemma {:induction false} CollectedHasSource(entries: seq<DirEntry>, x: string) returns (i: nat)
    requires x in WantedNames(entries)
    ensures i < |entries| && Wanted(entries[i]) && entries[i].name == x
    decreases |entries|
  {
    var init := entries[..|entries| - 1];
    var last := entries[|entries| - 1];
    if Wanted(last) && x == last.name {
      i := |entries| - 1;
    } else {
      i := CollectedHasSource(init, x);
      assert entries[i] == init[i];
    }
  }

  /** Every wanted entry's name is collected. */
  lemma {:induction false} SourceIsCollected(entries: seq<DirEntry>, i: nat)
    requires i < |entries| && Wanted(entries[i])
    ensures entries[i].name in WantedNames(entries)
    decreases |entries|
  {
    var init := entries[..|entries| - 1];
    if i < |init| {
      assert init[i] == entries[i];
      SourceIsCollected(init, i);
    }
  }

  /** The `for file_path in folder_path.iterdir()` loop that appends every supported file. */
  method CollectSupported(entries: seq<DirEntry>) returns (found: seq<string>)
    ensures found == WantedNames(entries)
    ensures forall x :: x in found <==> exists i :: 0 <= i < |entries| && Wanted(entries[i]) && entries[i].name == x
  {
    found := [];
    for i := 0 to |entries|
      invariant found == WantedNames(entries[..i])
    {
      assert entries[..i + 1][..i] == entries[..i];
      if Wanted(entries[i]) {
        found := found + [entries[i].name];
      }
    }
    assert entries[..|entries|] == entries;
    forall x | x in found
      ensures exists i :: 0 <= i < |entries| && Wanted(entries[i]) && entries[i].name == x
    {
      var i := CollectedHasSource(entries, x);
    }
    forall i | 0 <= i < |entries| && Wanted(entries[i])
      ensures entries[i].name in found
    {
      SourceIsCollected(entries, i);
    }
  }

  predicate StrictlySorted(s: seq<string>) {
    forall i, j :: 0 <= i < j < |s| ==> Below(s[i], s[j])
  }

  /** Insertion of `x` into a strictly sorted list, ignoring it when already present. */
  function Insert(s: seq<string>, x: string): (r: seq<string>)
    requires StrictlySorted(s)
    ensures StrictlySorted(r)
    ensures forall y :: y in r <==> y in s || y == x
    decreases |s|
  {
    if s == [] then [x]
    else if x == s[0] then s
    else if Below(x, s[0]) then
      assert forall j :: 0 <= j < |s| ==> Below(x, s[j]) by {
        forall j | 0 <= j < |s| ensures Below(x, s[j]) {
          if j > 0 { BelowTransitive(x, s[0], s[j]); }
        }
      }
      [x] + s
    else
      BelowTotal(x, s[0]);
      var t := Insert(s[1..], x);
      assert forall j :: 0 <= j < |t| ==> Below(s[0], t[j]) by {
        forall j | 0 <= j < |t| ensures Below(s[0], t[j]) {
          if t[j] != x {
            assert t[j] in s[1..];
          }
        }
      }
      [s[0]] + t
  }

  /** Python's `sorted(set(xs))`: the elements of `xs`, each once, in ascending order. */
  function SortedDistinct(xs: seq<string>): (r: seq<string>)
    ensures StrictlySorted(r)
    ensures forall y :: y in r <==> y in xs
    decreases |xs|
  {
    if xs == [] then []
    else
      var r := Insert(SortedDistinct(xs[..|xs| - 1]), xs[|xs| - 1]);
      assert forall y :: y in xs <==> y in xs[..|xs| - 1] || y == xs[|xs| - 1] by {
        assert xs == xs[..|xs| - 1] + [xs[|xs| - 1]];
      }
      r
  }

  lemma SameElementsEmpty(a: seq<string>, b: seq<string>)
    requires forall y :: y in a <==> y in b
    ensures a == [] <==> b == []
  {
    if a != [] { assert a[0] in a; }
    if b != [] { assert b[0] in b; }
  }

  /** A strictly sorted list is determined by its elements, so `SortedDistinct` is the only
      possible answer of `sorted(set(xs))`. */
  lemma {:induction false} StrictlySortedUnique(a: seq<string>, b: seq<string>)
    requires StrictlySorted(a) && StrictlySorted(b)
    requires forall y :: y in a <==> y in b
    ensures a == b
    decreases |a|
  {
    SameElementsEmpty(a, b);
    if a != [] {
      assert a[0] in b;
      assert b != [];
      if a[0] != b[0] {
        assert b[0] in a;
        assert Below(b[0], a[0]);
        assert Below(a[0], b[0]);
        BelowAsymmetric(a[0], b[0]);
        assert false;
      }
      forall y
        ensures y in a[1..] <==> y in b[1..]
      {
        BelowIrreflexive(a[0]);
        if y in a[1..] {
          var i :| 0 <= i < |a| - 1 && a[1..][i] == y;
          assert Below(a[0], a[i + 1]);
          assert y in a && y in b;
          var j :| 0 <= j < |b| && b[j] == y;
          assert j != 0;
          assert b[1..][j - 1] == y;
        }
        if y in b[1..] {
          var i :| 0 <= i < |b| - 1 && b[1..][i] == y;
          assert Below(b[0], b[i + 1]);
          assert y in b && y in a;
          var j :| 0 <= j < |a| && a[j] == y;
          assert j != 0;
          assert a[1..][j - 1] == y;
        }
      }
      StrictlySortedUnique(a[1..], b[1..]);
      assert a == [a[0]] + a[1..] && b == [b[0]] + b[1..];
    }
  }
}

/** The part of `pathlib.PurePath` the program relies on: the `suffix` and `stem` of a file
    name (the final path component, which never contains a separator). */
module Paths {

  /** Python's `name.rfind('.')`: the index of the last dot, or -1. */
  function LastDot(name: string): (i: int)
    ensures -1 <= i < |name|
    ensures i >= 0 ==> name[i] == '.'
    ensures forall k :: i < k < |name| ==> name[k] != '.'
    decreases |name|
  {
    if name == [] then -1
    else if name[|name| - 1] == '.' then |name| - 1
    else LastDot(name[..|name| - 1])
  }

  /** pathlib counts the last dot as starting a suffix only when it is neither the first
      nor the last character of the name (".jpg" and "photo." have no suffix). */
  predicate HasSuffix(name: string) {
    0 < LastDot(name) < |name| - 1
  }

  function Suffix(name: string): string {
    if HasSuffix(name) then name[LastDot(name)..] else ""
  }

  function Stem(name: string): string {
    if HasSuffix(name) then name[..LastDot(name)] else name
  }

  /** What a non-empty suffix looks like: a dot followed by at least one character and no
      further dot. */
  predicate SuffixShaped(suf: string) {
    |suf| >= 2 && suf[0] == '.' && forall k :: 1 <= k < |suf| ==> suf[k] != '.'
  }

  /** A name is its stem followed by its suffix, and a suffix is empty or suffix-shaped. */
  lemma StemSuffixSplit(name: string)
    ensures Stem(name) + Suffix(name) == name
    ensures Suffix(name) == "" || SuffixShaped(Suffix(name))
  {
  }

  /** Appending a suffix-shaped string to a non-empty name makes it the suffix, and the name
      the stem — whatever dots the name itself contains. */
  lemma SuffixOfAppended(x: string, suf: string)
    requires |x| > 0 && SuffixShaped(suf)
    ensures Suffix(x + suf) == suf
    ensures Stem(x + suf) == x
  {
    var n := x + suf;
    var i := LastDot(n);
    assert n[|x|] == '.';
    assert forall k :: |x| < k < |n| ==> n[k] == suf[k - |x|];
    assert i == |x|;
  }
}

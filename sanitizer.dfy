/** `sanitize_filename`: the user's label with the nine characters of the class `[<>:"/\\|?*]`
    removed (a single regular-expression substitution by the empty string). */
module Sanitizer {

  /** The nine characters of the class `[<>:"/\\|?*]`. */
  predicate IsForbidden(c: char) {
    c == '<' || c == '>' || c == ':' || c == '"' || c == '/' || c == '\\' || c == '|' || c == '?' || c == '*'
  }

  predicate Clean(s: string) {
    forall k :: 0 <= k < |s| ==> !IsForbidden(s[k])
  }

  /** `r` can be obtained from `s` by deleting characters (order is kept). */
  predicate IsSubsequence(r: string, s: string)
    decreases |s|
  {
    r == [] || (s != [] && ((r[0] == s[0] && IsSubsequence(r[1..], s[1..])) || IsSubsequence(r, s[1..])))
  }

  /** The result keeps the characters of `s` in order, contains no forbidden character, and
      keeps every allowed character as often as `s` has it. */
  function Sanitize(s: string): (r: string)
    ensures Clean(r)
    ensures IsSubsequence(r, s)
    ensures forall c :: !IsForbidden(c) ==> multiset(r)[c] == multiset(s)[c]
    decreases |s|
  {
    if s == [] then []
    else
      var rest := Sanitize(s[1..]);
      assert s == [s[0]] + s[1..];
      if IsForbidden(s[0]) then rest
      else
        assert ([s[0]] + rest)[1..] == rest;
        [s[0]] + rest
  }

  lemma {:induction false} SubsequenceMultiset(r: string, s: string)
    requires IsSubsequence(r, s)
    ensures multiset(r) <= multiset(s)
    decreases |s|
  {
    if r != [] {
      assert s == [s[0]] + s[1..];
      if r[0] == s[0] && IsSubsequence(r[1..], s[1..]) {
        SubsequenceMultiset(r[1..], s[1..]);
        assert r == [r[0]] + r[1..];
      } else {
        SubsequenceMultiset(r, s[1..]);
      }
    }
  }

  /** The three properties of the `Sanitize` contract determine its result: any string
      meeting them is exactly `Sanitize(s)`. */
  lemma {:induction false} SanitizeUnique(s: string, r: string)
    requires Clean(r)
    requires IsSubsequence(r, s)
    requires forall c :: !IsForbidden(c) ==> multiset(r)[c] == multiset(s)[c]
    ensures r == Sanitize(s)
    decreases |s|
  {
    if s == [] {
      return;
    }
    var c, t := s[0], s[1..];
    assert s == [c] + t;
    if IsForbidden(c) {
      if r != [] {
        assert !(r[0] == s[0]);
      }
      assert IsSubsequence(r, t);
      assert forall d :: !IsForbidden(d) ==> multiset(r)[d] == multiset(t)[d];
      SanitizeUnique(t, r);
    } else {
      assert multiset(r)[c] == multiset(s)[c] > 0;
      assert r == [r[0]] + r[1..];
      if !(r[0] == c && IsSubsequence(r[1..], t)) {
        SubsequenceMultiset(r, t);
        assert false;
      }
      assert forall d :: !IsForbidden(d) ==> multiset(r[1..])[d] == multiset(t)[d];
      assert Clean(r[1..]);
      SanitizeUnique(t, r[1..]);
    }
  }

  /** A label that is already clean is left as it is. */
  lemma {:induction false} SanitizeKeepsClean(s: string)
    requires Clean(s)
    ensures Sanitize(s) == s
    decreases |s|
  {
    if s != [] {
      assert Clean(s[1..]);
      SanitizeKeepsClean(s[1..]);
      assert [s[0]] + s[1..] == s;
    }
  }

  /** Sanitizing twice gives the same result as sanitizing once. */
  lemma SanitizeIdempotent(s: string)
    ensures Sanitize(Sanitize(s)) == Sanitize(s)
  {
    SanitizeKeepsClean(Sanitize(s));
  }
}

/** String helpers with the semantics of the JavaScript and Python built-ins the
    application calls: `includes`, `startsWith`, `split`, `strip` and `lower`. */
module Strings {
  import opened Wrappers

  /** `pat` occurs in `s` starting at index `j`. */
  predicate OccursAt(s: string, pat: string, j: int) {
    0 <= j && j + |pat| <= |s| && s[j..j + |pat|] == pat
  }

  /** `s.includes(pat)` / `pat in s`, computed by scanning left to right. */
  function Contains(s: string, pat: string): bool
    decreases |s|
  {
    if |s| < |pat| then false
    else if pat <= s then true
    else Contains(s[1..], pat)
  }

  /** An occurrence at `j >= 1` is an occurrence at `j - 1` of the tail. */
  lemma OccursShift(s: string, pat: string, j: int)
    requires 1 <= j && |s| >= 1
    ensures OccursAt(s, pat, j) <==> OccursAt(s[1..], pat, j - 1)
  {
    if j + |pat| <= |s| {
      assert s[1..][j - 1..j - 1 + |pat|] == s[j..j + |pat|];
    }
  }

  /** An occurrence inside a prefix is an occurrence in the whole string. */
  lemma OccursInPrefix(s: string, pat: string, i: int, j: int)
    requires 0 <= i <= |s| && OccursAt(s[..i], pat, j)
    ensures OccursAt(s, pat, j)
  {
    assert s[..i][j..j + |pat|] == s[j..j + |pat|];
  }

  /** The scan agrees with the definition of a substring occurrence, in both directions. */
  lemma {:induction false} ContainsIff(s: string, pat: string)
    ensures Contains(s, pat) <==> exists j :: OccursAt(s, pat, j)
    decreases |s|
  {
    if |s| < |pat| {
    } else if pat <= s {
      assert OccursAt(s, pat, 0);
    } else {
      ContainsIff(s[1..], pat);
      forall j | 1 <= j
        ensures OccursAt(s, pat, j) <==> OccursAt(s[1..], pat, j - 1)
      {
        OccursShift(s, pat, j);
      }
      if Contains(s[1..], pat) {
        var j :| OccursAt(s[1..], pat, j);
        assert OccursAt(s, pat, j + 1);
      }
    }
  }

  /** Index of the leftmost occurrence of `sep` in `s`, if any. */
  function Find(s: string, sep: string): (r: Option<nat>)
    requires |sep| > 0
    ensures r.Some? ==> OccursAt(s, sep, r.value)
    ensures r.Some? ==> forall j :: 0 <= j < r.value ==> !OccursAt(s, sep, j)
    ensures r.None? ==> forall j :: !OccursAt(s, sep, j)
    decreases |s|
  {
    if |s| < |sep| then None
    else if sep <= s then Some(0)
    else
      var tail := Find(s[1..], sep);
      assert forall j :: 1 <= j ==> (OccursAt(s, sep, j) <==> OccursAt(s[1..], sep, j - 1)) by {
        forall j | 1 <= j ensures OccursAt(s, sep, j) <==> OccursAt(s[1..], sep, j - 1) {
          OccursShift(s, sep, j);
        }
      }
      match tail
      case None => None
      case Some(k) => Some(k + 1)
  }

  /** An occurrence with none before it is the one `Find` reports. */
  lemma FindLeftmost(s: string, sep: string, i: nat)
    requires |sep| > 0 && OccursAt(s, sep, i)
    requires forall j :: 0 <= j < i ==> !OccursAt(s, sep, j)
    ensures Find(s, sep) == Some(i)
  {
  }

  /** A single-character separator occurs exactly where that character is. */
  lemma OccursChar(s: string, c: char, j: int)
    ensures OccursAt(s, [c], j) <==> 0 <= j < |s| && s[j] == c
  {
    if 0 <= j < |s| {
      assert s[j..j + 1] == [s[j]];
    }
  }

  /** `s.split(sep)` for a non-empty separator: the pieces between the
      leftmost non-overlapping occurrences of `sep`. */
  function Split(s: string, sep: string): (parts: seq<string>)
    requires |sep| > 0
    ensures |parts| >= 1
    decreases |s|
  {
    match Find(s, sep)
    case None => [s]
    case Some(i) => [s[..i]] + Split(s[i + |sep|..], sep)
  }

  /** `parts.join(sep)`. */
  function Join(parts: seq<string>, sep: string): string {
    if |parts| == 0 then ""
    else if |parts| == 1 then parts[0]
    else parts[0] + sep + Join(parts[1..], sep)
  }

  /** Joining the pieces of a split with the same separator gives back the string. */
  lemma {:induction false} JoinSplit(s: string, sep: string)
    requires |sep| > 0
    ensures Join(Split(s, sep), sep) == s
    decreases |s|
  {
    var found := Find(s, sep);
    if found.Some? {
      var i := found.value;
      var rest := s[i + |sep|..];
      var tail := Split(rest, sep);
      JoinSplit(rest, sep);
      var parts := Split(s, sep);
      assert parts == [s[..i]] + tail;
      assert |parts| >= 2 && parts[0] == s[..i] && parts[1..] == tail;
      assert Join(parts, sep) == s[..i] + sep + Join(tail, sep);
      assert s[i..i + |sep|] == sep;
      assert s == s[..i] + s[i..i + |sep|] + rest;
    }
  }

  /** No piece of a split contains the separator. */
  lemma {:induction false} SplitPiecesFree(s: string, sep: string)
    requires |sep| > 0
    ensures forall k, j :: 0 <= k < |Split(s, sep)| ==> !OccursAt(Split(s, sep)[k], sep, j)
    decreases |s|
  {
    match Find(s, sep)
    case None =>
    case Some(i) =>
      var rest := s[i + |sep|..];
      SplitPiecesFree(rest, sep);
      var parts := Split(s, sep);
      assert parts[1..] == Split(rest, sep);
      forall k, j | 0 <= k < |parts| ensures !OccursAt(parts[k], sep, j) {
        if k == 0 {
          if OccursAt(s[..i], sep, j) {
            OccursInPrefix(s, sep, i, j);
          }
        } else {
          assert parts[k] == Split(rest, sep)[k - 1];
        }
      }
  }

  /** `s.replace(pat, "")`: the pieces between the occurrences of `pat`, glued together. */
  function RemoveAll(s: string, pat: string): (r: string)
    requires |pat| > 0
    ensures (forall j :: !OccursAt(s, pat, j)) ==> r == s
  {
    Join(Split(s, pat), "")
  }

  /** `s.strip(chars)`: drop leading and trailing characters from `chars`. */
  function StripChars(s: string, chars: set<char>): (r: string)
    ensures |r| <= |s|
    ensures |s| > 0 && s[0] !in chars && s[|s| - 1] !in chars ==> r == s
    ensures |r| > 0 ==> r[0] !in chars && r[|r| - 1] !in chars
    decreases |s|
  {
    if |s| > 0 && s[0] in chars then StripChars(s[1..], chars)
    else if |s| > 0 && s[|s| - 1] in chars then StripChars(s[..|s| - 1], chars)
    else s
  }

  /** Python's `str.isspace`: the ASCII controls 9-13 and 28-31, space, and the Unicode separators. */
  predicate IsSpace(c: char) {
    ('\t' <= c <= '\r') || ('\U{1C}' <= c <= ' ') || c == '\U{85}' || c == '\U{A0}' || c == '\U{1680}'
    || ('\U{2000}' <= c <= '\U{200A}') || c == '\U{2028}' || c == '\U{2029}' || c == '\U{202F}'
    || c == '\U{205F}' || c == '\U{3000}'
  }

  /** `s.strip()`: drop leading and trailing whitespace. */
  function Strip(s: string): (r: string)
    ensures |r| <= |s|
    decreases |s|
  {
    if |s| > 0 && IsSpace(s[0]) then Strip(s[1..])
    else if |s| > 0 && IsSpace(s[|s| - 1]) then Strip(s[..|s| - 1])
    else s
  }

  /** `s.strip()` is empty exactly when every character of `s` is whitespace. */
  lemma {:induction false} StripEmptyIff(s: string)
    ensures Strip(s) == "" <==> forall i :: 0 <= i < |s| ==> IsSpace(s[i])
    decreases |s|
  {
    if |s| > 0 && IsSpace(s[0]) {
      StripEmptyIff(s[1..]);
      assert forall i :: 1 <= i < |s| ==> s[i] == s[1..][i - 1];
    } else if |s| > 0 && IsSpace(s[|s| - 1]) {
      StripEmptyIff(s[..|s| - 1]);
      assert forall i :: 0 <= i < |s| - 1 ==> s[i] == s[..|s| - 1][i];
    }
  }

  /** ASCII upper-case letters mapped to lower case; everything else unchanged. */
  function LowerChar(c: char): char {
    if 'A' <= c <= 'Z' then (c as int - 'A' as int + 'a' as int) as char else c
  }

  /** `s.lower()`, restricted to ASCII letters. */
  function Lower(s: string): (r: string)
    ensures |r| == |s|
    ensures forall i :: 0 <= i < |s| ==> r[i] == LowerChar(s[i])
  {
    if |s| == 0 then "" else [LowerChar(s[0])] + Lower(s[1..])
  }

  /** Lower-casing twice is lower-casing once. */
  lemma LowerIdempotent(s: string)
    ensures Lower(Lower(s)) == Lower(s)
  {
    var l := Lower(s);
    forall i | 0 <= i < |s| ensures Lower(l)[i] == l[i] {
      assert LowerChar(LowerChar(s[i])) == LowerChar(s[i]);
    }
  }
}

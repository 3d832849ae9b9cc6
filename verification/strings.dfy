/** The few Python string operations the trigger relies on (`startswith`, `endswith`,
    `replace`, `split`, `upper`, `lower`, `title` and the leading-letters split of a file
    name), restricted to ASCII. */
module Strings {

  predicate StartsWith(s: string, p: string) {
    |p| <= |s| && s[..|p|] == p
  }

  predicate EndsWith(s: string, x: string) {
    |x| <= |s| && s[|s| - |x|..] == x
  }

  predicate IsLetter(c: char) {
    'a' <= c <= 'z' || 'A' <= c <= 'Z'
  }

  predicate AllLetters(s: string) {
    forall i :: 0 <= i < |s| ==> IsLetter(s[i])
  }

  function UpperChar(c: char): char {
    if 'a' <= c <= 'z' then (c as int - 32) as char else c
  }

  function LowerChar(c: char): char {
    if 'A' <= c <= 'Z' then (c as int + 32) as char else c
  }

  /** `str.upper()` on ASCII text. */
  function Upper(s: string): string {
    seq(|s|, i requires 0 <= i < |s| => UpperChar(s[i]))
  }

  /** `str.lower()` on ASCII text. */
  function Lower(s: string): string {
    seq(|s|, i requires 0 <= i < |s| => LowerChar(s[i]))
  }

  /** Upper-casing leaves no lower-case letter and keeps every other character class. */
  lemma UpperIsUpper(s: string)
    ensures |Upper(s)| == |s|
    ensures forall i :: 0 <= i < |s| ==> !('a' <= Upper(s)[i] <= 'z')
    ensures forall i :: 0 <= i < |s| ==> (IsLetter(Upper(s)[i]) <==> IsLetter(s[i]))
    ensures Upper(Upper(s)) == Upper(s)
  {
  }

  /** Lower-casing leaves no upper-case letter, keeps letters letters and is idempotent. */
  lemma LowerIsLower(s: string)
    ensures |Lower(s)| == |s|
    ensures forall i :: 0 <= i < |s| ==> !('A' <= Lower(s)[i] <= 'Z')
    ensures forall i :: 0 <= i < |s| ==> (IsLetter(Lower(s)[i]) <==> IsLetter(s[i]))
    ensures Lower(Lower(s)) == Lower(s)
  {
  }

  /** `str.title()` on ASCII text: a letter is upper-cased when the character before it is
      not a letter (or it is the first character) and lower-cased otherwise. */
  function Title(s: string): string {
    TitleAfter(s, false)
  }

  function TitleAfter(s: string, afterLetter: bool): string
    decreases |s|
  {
    if s == [] then []
    else
      var c := s[0];
      var c' := if !IsLetter(c) then c else if afterLetter then LowerChar(c) else UpperChar(c);
      [c'] + TitleAfter(s[1..], IsLetter(c))
  }

  /** Each character of `Title(s)` depends only on itself and its predecessor. */
  lemma {:induction false} TitleAt(s: string, i: nat)
    requires i < |s|
    ensures |Title(s)| == |s|
    ensures Title(s)[i] ==
      if !IsLetter(s[i]) then s[i]
      else if i > 0 && IsLetter(s[i - 1]) then LowerChar(s[i])
      else UpperChar(s[i])
  {
    TitleAfterAt(s, false, i);
  }

  lemma {:induction false} TitleAfterAt(s: string, b: bool, i: nat)
    requires i < |s|
    ensures |TitleAfter(s, b)| == |s|
    ensures TitleAfter(s, b)[i] ==
      if !IsLetter(s[i]) then s[i]
      else if (if i == 0 then b else IsLetter(s[i - 1])) then LowerChar(s[i])
      else UpperChar(s[i])
  {
    if i == 0 {
      TitleAfterLength(s[1..], IsLetter(s[0]));
    } else {
      TitleAfterAt(s[1..], IsLetter(s[0]), i - 1);
    }
  }

  lemma {:induction false} TitleAfterLength(s: string, b: bool)
    ensures |TitleAfter(s, b)| == |s|
  {
    if s != [] {
      TitleAfterLength(s[1..], IsLetter(s[0]));
    }
  }

  /** `pat` occurs in `s` starting at index `i`. */
  predicate OccursAt(s: string, pat: string, i: nat) {
    i + |pat| <= |s| && s[i..i + |pat|] == pat
  }

  ghost predicate Contains(s: string, pat: string) {
    exists i: nat :: OccursAt(s, pat, i)
  }

  /** `s.replace(pat, rep)`: every non-overlapping occurrence of `pat`, scanning from the
      left, is replaced by `rep`. */
  function ReplaceAll(s: string, pat: string, rep: string): string
    requires pat != []
    decreases |s|
  {
    if |s| < |pat| then s
    else if s[..|pat|] == pat then rep + ReplaceAll(s[|pat|..], pat, rep)
    else [s[0]] + ReplaceAll(s[1..], pat, rep)
  }

  /** A string in which the pattern does not occur is left as it is. */
  lemma {:induction false} ReplaceAbsent(s: string, pat: string, rep: string)
    requires pat != []
    requires !Contains(s, pat)
    ensures ReplaceAll(s, pat, rep) == s
  {
    if |s| >= |pat| {
      assert !OccursAt(s, pat, 0);
      assert s[..|pat|] != pat;
      forall i: nat | OccursAt(s[1..], pat, i) ensures false {
        assert s[1..][i..i + |pat|] == s[i + 1..i + 1 + |pat|];
        assert OccursAt(s, pat, i + 1);
      }
      ReplaceAbsent(s[1..], pat, rep);
    }
  }

  /** Removing a pattern from the front of a string in which it does not otherwise occur
      gives back that string. */
  lemma StripPrefix(pat: string, s: string)
    requires pat != []
    requires !Contains(s, pat)
    ensures ReplaceAll(pat + s, pat, "") == s
  {
    assert (pat + s)[..|pat|] == pat;
    assert (pat + s)[|pat|..] == s;
    ReplaceAbsent(s, pat, "");
  }

  /** `s.split(sep)` for a one-character separator. */
  function Split(s: string, sep: char): (parts: seq<string>)
    ensures |parts| >= 1
    decreases |s|
  {
    if sep !in s then [s]
    else
      var i := FirstIndex(s, sep);
      [s[..i]] + Split(s[i + 1..], sep)
  }

  function FirstIndex(s: string, c: char): (i: nat)
    requires c in s
    ensures i < |s| && s[i] == c && c !in s[..i]
  {
    if s[0] == c then 0 else 1 + FirstIndex(s[1..], c)
  }

  /** `sep.join(parts)`. */
  function Join(parts: seq<string>, sep: char): string
    requires |parts| >= 1
  {
    if |parts| == 1 then parts[0] else parts[0] + [sep] + Join(parts[1..], sep)
  }

  /** Splitting loses nothing: joining the parts gives the string back, and no part holds
      the separator. */
  lemma {:induction false} SplitJoin(s: string, sep: char)
    ensures Join(Split(s, sep), sep) == s
    ensures forall k :: 0 <= k < |Split(s, sep)| ==> sep !in Split(s, sep)[k]
    decreases |s|
  {
    if sep in s {
      var i := FirstIndex(s, sep);
      SplitJoin(s[i + 1..], sep);
      assert s == s[..i] + [sep] + s[i + 1..];
    }
  }

  /** Joining separator-free parts and splitting again gives the parts back. */
  lemma {:induction false} JoinSplit(parts: seq<string>, sep: char)
    requires |parts| >= 1
    requires forall k :: 0 <= k < |parts| ==> sep !in parts[k]
    ensures Split(Join(parts, sep), sep) == parts
    decreases |parts|
  {
    if |parts| > 1 {
      var s := Join(parts, sep);
      assert s == parts[0] + [sep] + Join(parts[1..], sep);
      assert s[|parts[0]|] == sep;
      var i := FirstIndex(s, sep);
      assert s[..|parts[0]|] == parts[0];
      if i < |parts[0]| {
        assert false;
      } else if i > |parts[0]| {
        assert false;
      }
      assert s[..i] == parts[0];
      assert s[i + 1..] == Join(parts[1..], sep);
      JoinSplit(parts[1..], sep);
    }
  }

  /** `re.split(r'[^a-zA-Z]', s)[0]`: the longest prefix of `s` made of ASCII letters. */
  function LeadingLetters(s: string): (r: string)
    ensures |r| <= |s| && r == s[..|r|]
    ensures AllLetters(r)
    ensures |r| == |s| || !IsLetter(s[|r|])
  {
    if s == [] || !IsLetter(s[0]) then [] else [s[0]] + LeadingLetters(s[1..])
  }

  /** The leading letters of a string are exactly a letter-only prefix that is followed
      by a non-letter. */
  lemma {:induction false} LeadingLettersOf(p: string, rest: string)
    requires AllLetters(p)
    requires rest == [] || !IsLetter(rest[0])
    ensures LeadingLetters(p + rest) == p
  {
    if p != [] {
      assert (p + rest)[1..] == p[1..] + rest;
      LeadingLettersOf(p[1..], rest);
    }
  }
}

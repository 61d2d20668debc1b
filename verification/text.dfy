/** String helpers with the meaning Python 3 gives them: `str.isspace`,
    `str.strip()`, the substring test `needle in haystack`, and splitting a
    text at newlines. Strings are sequences of Unicode scalar values, so
    `|s|` is Python's `len(s)`. */
module Text {

  /** The characters for which Python's `str.isspace()` is true: the ASCII
      whitespace and separator controls, NEL, NBSP and the Unicode space
      separators, line separator and paragraph separator. */
  predicate IsSpace(c: char) {
    || c == ' ' || c == '\t' || c == '\n' || c == '\r'
    || (c as int) == 0x0B || (c as int) == 0x0C
    || (0x1C <= c as int <= 0x1F)
    || (c as int) == 0x85 || (c as int) == 0xA0 || (c as int) == 0x1680
    || (0x2000 <= c as int <= 0x200A)
    || (c as int) == 0x2028 || (c as int) == 0x2029 || (c as int) == 0x202F
    || (c as int) == 0x205F || (c as int) == 0x3000
  }

  predicate AllSpace(s: string) {
    forall i :: 0 <= i < |s| ==> IsSpace(s[i])
  }

  /** Index of the first non-space character at or after `i`, or `|s|`. */
  function SkipSpace(s: string, i: nat): (k: nat)
    requires i <= |s|
    ensures i <= k <= |s|
    ensures forall m :: i <= m < k ==> IsSpace(s[m])
    ensures k < |s| ==> !IsSpace(s[k])
    decreases |s| - i
  {
    if i < |s| && IsSpace(s[i]) then SkipSpace(s, i + 1) else i
  }

  /** Index just past the last non-space character before `j`, not going
      below `lo`. */
  function SkipSpaceBack(s: string, lo: nat, j: nat): (k: nat)
    requires lo <= j <= |s|
    ensures lo <= k <= j
    ensures forall m :: k <= m < j ==> IsSpace(s[m])
    ensures k > lo ==> !IsSpace(s[k - 1])
    decreases j
  {
    if j > lo && IsSpace(s[j - 1]) then SkipSpaceBack(s, lo, j - 1) else j
  }

  /** Python's `s.strip()` with no argument: the text between the first and
      the last non-space character. */
  function Strip(s: string): string {
    var i := SkipSpace(s, 0);
    s[i..SkipSpaceBack(s, i, |s|)]
  }

  /** `r` is `s[i..j]` and everything outside `i..j` is whitespace. */
  ghost predicate SpaceFramed(s: string, r: string, i: int, j: int) {
    0 <= i <= j <= |s| && r == s[i..j] && AllSpace(s[..i]) && AllSpace(s[j..])
  }

  /** What `strip` promises: the result is the contiguous middle of `s` left
      after removing only whitespace from both ends, and it neither starts nor
      ends with whitespace. */
  lemma StripIsMiddle(s: string)
    ensures exists i, j :: SpaceFramed(s, Strip(s), i, j)
    ensures Strip(s) == [] || (!IsSpace(Strip(s)[0]) && !IsSpace(Strip(s)[|Strip(s)| - 1]))
  {
    var i := SkipSpace(s, 0);
    var j := SkipSpaceBack(s, i, |s|);
    assert SpaceFramed(s, Strip(s), i, j);
    if i < j {
      assert Strip(s)[0] == s[i];
      assert Strip(s)[|Strip(s)| - 1] == s[j - 1];
    }
  }

  /** `s` is non-empty and has no whitespace at either end. */
  predicate Unpadded(s: string) {
    |s| > 0 && !IsSpace(s[0]) && !IsSpace(s[|s| - 1])
  }

  /** Stripping twice is stripping once. */
  lemma StripIdempotent(s: string)
    ensures Strip(Strip(s)) == Strip(s)
  {
    StripIsMiddle(s);
    var r := Strip(s);
    if r != [] {
      assert SkipSpace(r, 0) == 0;
      assert SkipSpaceBack(r, 0, |r|) == |r|;
    }
  }

  /** `strip` removes exactly the whitespace padding around a text. */
  lemma StripPadding(before: string, s: string, after: string)
    requires AllSpace(before) && AllSpace(after) && Unpadded(s)
    ensures Strip(before + s + after) == s
  {
    var t := before + s + after;
    var i := SkipSpace(t, 0);
    assert t[|before|] == s[0];
    assert forall m :: 0 <= m < |before| ==> t[m] == before[m];
    assert i == |before|;
    var j := SkipSpaceBack(t, i, |t|);
    assert t[|before| + |s| - 1] == s[|s| - 1];
    assert forall m :: |before| + |s| <= m < |t| ==> t[m] == after[m - |before| - |s|];
    assert j == |before| + |s|;
    assert t[i..j] == s;
  }

  /** Python's `needle in haystack` for two strings, computed by scanning. */
  function HasSubstring(haystack: string, needle: string): (r: bool)
    ensures r <==> OccursIn(haystack, needle)
    decreases |haystack|
  {
    if |needle| > |haystack| then false
    else if haystack[..|needle|] == needle then
      assert OccursAt(haystack, needle, 0);
      true
    else
      OccursShift(haystack, needle);
      HasSubstring(haystack[1..], needle)
  }

  /** `needle` occurs in `haystack` starting at offset `i`. */
  ghost predicate OccursAt(haystack: string, needle: string, i: int) {
    0 <= i <= |haystack| - |needle| && haystack[i..i + |needle|] == needle
  }

  /** `needle` occurs somewhere in `haystack`. */
  ghost predicate OccursIn(haystack: string, needle: string) {
    exists i :: OccursAt(haystack, needle, i)
  }

  /** An occurrence that is not at the front is an occurrence in the tail. */
  lemma OccursShift(haystack: string, needle: string)
    requires |needle| <= |haystack| && haystack[..|needle|] != needle
    ensures OccursIn(haystack, needle) <==> OccursIn(haystack[1..], needle)
  {
    if OccursIn(haystack, needle) {
      var i :| OccursAt(haystack, needle, i);
      assert i > 0;
      assert haystack[1..][i - 1..i - 1 + |needle|] == haystack[i..i + |needle|];
      assert OccursAt(haystack[1..], needle, i - 1);
    }
    if OccursIn(haystack[1..], needle) {
      var i :| OccursAt(haystack[1..], needle, i);
      assert haystack[i + 1..i + 1 + |needle|] == haystack[1..][i..i + |needle|];
      assert OccursAt(haystack, needle, i + 1);
    }
  }

  /** Lines joined by a single newline, as an f-string with `\n` between
      them builds them. */
  function JoinLines(lines: seq<string>): string
    requires |lines| > 0
  {
    if |lines| == 1 then lines[0] else lines[0] + "\n" + JoinLines(lines[1..])
  }

  /** Five lines joined read as one text with a newline between each two. */
  lemma JoinFive(lines: seq<string>)
    requires |lines| == 5
    ensures JoinLines(lines) ==
            lines[0] + "\n" + lines[1] + "\n" + lines[2] + "\n" + lines[3] + "\n" + lines[4]
  {
    var tail3 := lines[3] + "\n" + lines[4];
    assert JoinLines(lines[3..]) == tail3 by {
      assert lines[3..][1..] == lines[4..];
    }
    var tail2 := lines[2] + "\n" + tail3;
    assert JoinLines(lines[2..]) == tail2 by {
      assert lines[2..][1..] == lines[3..];
    }
    var tail1 := lines[1] + "\n" + tail2;
    assert JoinLines(lines[1..]) == tail1 by {
      assert lines[1..][1..] == lines[2..];
    }
    assert JoinLines(lines) == lines[0] + "\n" + tail1;
    Flatten(lines[0], lines[1], lines[2], lines[3], lines[4]);
  }

  lemma Flatten(a: string, b: string, c: string, d: string, e: string)
    ensures a + "\n" + (b + "\n" + (c + "\n" + (d + "\n" + e)))
            == a + "\n" + b + "\n" + c + "\n" + d + "\n" + e
  {
  }

  /** Python's `s.split("\n")`: the pieces between newlines, always at least one. */
  function SplitLines(s: string): (r: seq<string>)
    ensures |r| > 0
  {
    if |s| == 0 then [""]
    else if s[0] == '\n' then [""] + SplitLines(s[1..])
    else
      var rest := SplitLines(s[1..]);
      [[s[0]] + rest[0]] + rest[1..]
  }

  lemma {:induction false} SplitNoNewline(s: string)
    requires '\n' !in s
    ensures SplitLines(s) == [s]
  {
    if |s| > 0 {
      SplitNoNewline(s[1..]);
      assert [s[0]] + s[1..] == s;
    }
  }

  lemma {:induction false} SplitAtNewline(a: string, b: string)
    requires '\n' !in a
    ensures SplitLines(a + "\n" + b) == [a] + SplitLines(b)
  {
    if |a| == 0 {
      assert a + "\n" + b == "\n" + b;
      assert ("\n" + b)[1..] == b;
    } else {
      var s := a + "\n" + b;
      assert s[0] == a[0];
      assert s[1..] == a[1..] + "\n" + b;
      SplitAtNewline(a[1..], b);
      assert [a[0]] + a[1..] == a;
    }
  }

  /** Splitting undoes joining when no line contains a newline of its own. */
  lemma {:induction false} SplitJoinLines(lines: seq<string>)
    requires |lines| > 0
    requires forall k :: 0 <= k < |lines| ==> '\n' !in lines[k]
    ensures SplitLines(JoinLines(lines)) == lines
  {
    if |lines| == 1 {
      SplitNoNewline(lines[0]);
    } else {
      SplitJoinLines(lines[1..]);
      SplitAtNewline(lines[0], JoinLines(lines[1..]));
      assert [lines[0]] + lines[1..] == lines;
    }
  }
}

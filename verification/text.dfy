/** String operations the program takes from .NET: ordinal search (`IndexOf`,
    `Contains`), case-insensitive search (`StringComparison.OrdinalIgnoreCase`),
    `Trim`, `Split`, and the two `System.IO.Path` helpers it uses. */
module Text {

  // ----- ordinal search -----

  /** `t` occurs in `s` starting at position `i`. */
  predicate MatchAt(s: string, t: string, i: int) {
    0 <= i && i + |t| <= |s| && s[i..i + |t|] == t
  }

  /** `s.Contains(t)` with ordinal comparison. */
  predicate Contains(s: string, t: string) {
    exists i | 0 <= i <= |s| - |t| :: MatchAt(s, t, i)
  }

  /** `s.IndexOf(t, from)`: the first position at or after `from` where `t` occurs, or -1. */
  function IndexOf(s: string, t: string, from: nat): (r: int)
    requires from <= |s|
    ensures r == -1 || (from <= r && MatchAt(s, t, r))
    ensures r == -1 <==> forall j :: from <= j ==> !MatchAt(s, t, j)
    ensures r >= 0 ==> forall j :: from <= j < r ==> !MatchAt(s, t, j)
    decreases |s| - from
  {
    if from + |t| > |s| then -1
    else if s[from..from + |t|] == t then from
    else IndexOf(s, t, from + 1)
  }

  /** `Contains` and `IndexOf` agree. */
  lemma ContainsIndexOf(s: string, t: string)
    ensures Contains(s, t) <==> IndexOf(s, t, 0) >= 0
  {
    if Contains(s, t) {
      var i :| 0 <= i <= |s| - |t| && MatchAt(s, t, i);
      assert IndexOf(s, t, 0) != -1;
    }
  }

  /** A first occurrence stays the first occurrence when text is appended. */
  lemma {:induction false} IndexOfAppend(s: string, x: string, t: string, from: nat)
    requires from <= |s| && IndexOf(s, t, from) >= 0
    ensures IndexOf(s + x, t, from) == IndexOf(s, t, from)
  {
    var i := IndexOf(s, t, from);
    assert (s + x)[i..i + |t|] == s[i..i + |t|];
    forall j | from <= j < i
      ensures !MatchAt(s + x, t, j)
    {
      assert !MatchAt(s, t, j);
      if j + |t| <= |s| {
        assert (s + x)[j..j + |t|] == s[j..j + |t|];
      }
    }
    assert MatchAt(s + x, t, i);
  }

  // ----- case-insensitive comparison -----

  /** Upper-case mapping of one character, restricted to ASCII letters. */
  function UpperChar(c: char): char {
    if 'a' <= c <= 'z' then (c as int - 32) as char else c
  }

  function Upper(s: string): string {
    seq(|s|, i requires 0 <= i < |s| => UpperChar(s[i]))
  }

  /** Case folding works character by character. */
  lemma UpperAppend(a: string, b: string)
    ensures Upper(a + b) == Upper(a) + Upper(b)
  {
    assert forall i :: 0 <= i < |a + b| ==> Upper(a + b)[i] == (Upper(a) + Upper(b))[i];
  }

  /** Text that contains `a + b` contains `a`. */
  lemma ContainsFront(s: string, a: string, b: string)
    requires Contains(s, a + b)
    ensures Contains(s, a)
  {
    var i :| 0 <= i <= |s| - |a + b| && MatchAt(s, a + b, i);
    assert s[i..i + |a|] == (a + b)[..|a|];
    assert MatchAt(s, a, i);
  }

  /** `s.Contains(t, StringComparison.OrdinalIgnoreCase)`. */
  predicate ContainsIgnoreCase(s: string, t: string) {
    Contains(Upper(s), Upper(t))
  }

  /** Text that contains `a + b`, ignoring case, contains `a`, ignoring case. */
  lemma ContainsIgnoreCaseFront(s: string, a: string, b: string)
    requires ContainsIgnoreCase(s, a + b)
    ensures ContainsIgnoreCase(s, a)
  {
    UpperAppend(a, b);
    ContainsFront(Upper(s), Upper(a), Upper(b));
  }

  /** `string.Equals(s, t, StringComparison.OrdinalIgnoreCase)`. */
  predicate EqualsIgnoreCase(s: string, t: string) {
    Upper(s) == Upper(t)
  }

  /** `s.EndsWith(t, StringComparison.OrdinalIgnoreCase)`. */
  predicate EndsWithIgnoreCase(s: string, t: string) {
    |t| <= |s| && EqualsIgnoreCase(s[|s| - |t|..], t)
  }

  // ----- Trim -----

  /** `char.IsWhiteSpace`: the Unicode White_Space characters. */
  predicate IsWhiteSpace(c: char) {
    ('\U{9}' <= c <= '\U{D}') || c == ' ' || c == '\U{85}' || c == '\U{A0}' || c == '\U{1680}'
    || ('\U{2000}' <= c <= '\U{200A}') || c == '\U{2028}' || c == '\U{2029}' || c == '\U{202F}'
    || c == '\U{205F}' || c == '\U{3000}'
  }

  /** The number of white-space characters `s` starts with. */
  function LeadingSpace(s: string): (n: nat)
    ensures n <= |s|
    ensures forall k :: 0 <= k < n ==> IsWhiteSpace(s[k])
    ensures n < |s| ==> !IsWhiteSpace(s[n])
    decreases |s|
  {
    if |s| > 0 && IsWhiteSpace(s[0]) then 1 + LeadingSpace(s[1..]) else 0
  }

  /** The number of white-space characters `s` ends with. */
  function TrailingSpace(s: string): (n: nat)
    ensures n <= |s|
    ensures forall k :: |s| - n <= k < |s| ==> IsWhiteSpace(s[k])
    ensures n < |s| ==> !IsWhiteSpace(s[|s| - n - 1])
    decreases |s|
  {
    if |s| > 0 && IsWhiteSpace(s[|s| - 1]) then 1 + TrailingSpace(s[..|s| - 1]) else 0
  }

  /** `s.TrimStart()`: `s` without its leading white space. */
  function TrimStart(s: string): string {
    s[LeadingSpace(s)..]
  }

  /** `s.TrimEnd()`: `s` without its trailing white space. */
  function TrimEnd(s: string): string {
    s[..|s| - TrailingSpace(s)]
  }

  /** `s.Trim()`: `s` without its leading and trailing white space. */
  function Trim(s: string): string {
    TrimEnd(TrimStart(s))
  }

  /** `s[i..j]` is what remains of `s` after dropping white space at both
      ends: the dropped parts are white space and the kept part neither
      starts nor ends with white space. */
  predicate KeptMiddle(s: string, i: int, j: int) {
    0 <= i <= j <= |s|
    && (forall k :: 0 <= k < i ==> IsWhiteSpace(s[k]))
    && (forall k :: j <= k < |s| ==> IsWhiteSpace(s[k]))
    && (i < j ==> !IsWhiteSpace(s[i]) && !IsWhiteSpace(s[j - 1]))
  }

  /** Trim keeps a middle stretch of the text: everything it drops is white
      space, and what it keeps neither starts nor ends with white space. */
  lemma TrimMiddle(s: string)
    ensures exists i, j :: KeptMiddle(s, i, j) && Trim(s) == s[i..j]
  {
    var t := TrimStart(s);
    var r := Trim(s);
    var i := LeadingSpace(s);
    var j := i + |r|;
    assert r == s[i..j];
    forall k | j <= k < |s|
      ensures IsWhiteSpace(s[k])
    {
      assert s[k] == t[k - i];
    }
    if i < j {
      assert s[i] == r[0] && s[j - 1] == r[|r| - 1];
    }
    assert KeptMiddle(s, i, j);
  }

  // ----- Split -----

  /** `s.Split(sep)`: the pieces between the occurrences of `sep`. */
  function Split(s: string, sep: char): (parts: seq<string>)
    ensures |parts| >= 1
    ensures forall i :: 0 <= i < |parts| ==> sep !in parts[i]
    decreases |s|
  {
    if |s| == 0 then [""]
    else
      var rest := Split(s[1..], sep);
      if s[0] == sep then [""] + rest
      else [[s[0]] + rest[0]] + rest[1..]
  }

  /** `string.Join(sep, parts)`. */
  function Join(parts: seq<string>, sep: char): string
    requires |parts| >= 1
    decreases |parts|
  {
    if |parts| == 1 then parts[0] else parts[0] + [sep] + Join(parts[1..], sep)
  }

  /** Joining the pieces of a split gives back the original text. */
  lemma {:induction false} JoinSplit(s: string, sep: char)
    ensures Join(Split(s, sep), sep) == s
    decreases |s|
  {
    if |s| > 0 {
      JoinSplit(s[1..], sep);
      var rest := Split(s[1..], sep);
      if s[0] == sep {
        assert Split(s, sep)[1..] == rest;
        assert s == [sep] + s[1..];
      } else if |rest| == 1 {
        assert s == [s[0]] + s[1..];
      } else {
        var parts := Split(s, sep);
        assert parts[1..] == rest[1..];
        assert s == [s[0]] + s[1..];
      }
    }
  }

  /** Position of the first `c` in `s`, or |s| when there is none. */
  function FirstPos(s: string, c: char): (r: nat)
    ensures r <= |s| && (r < |s| ==> s[r] == c)
    ensures forall k :: 0 <= k < r ==> s[k] != c
  {
    if |s| == 0 || s[0] == c then 0 else 1 + FirstPos(s[1..], c)
  }

  // ----- System.IO.Path -----

  predicate IsDirectorySeparator(c: char) {
    c == '\\' || c == '/'
  }

  /** A Windows path is rooted when it starts with a separator or a drive letter and colon. */
  predicate IsRooted(p: string) {
    (|p| >= 1 && IsDirectorySeparator(p[0])) || (|p| >= 2 && p[1] == ':')
  }

  /** `Path.Combine(a, b)` on Windows. */
  function Combine(a: string, b: string): (r: string)
    ensures b != [] && !IsRooted(b) && a != [] && !IsDirectorySeparator(a[|a| - 1])
      ==> r == a + "\\" + b
  {
    if b == [] then a
    else if a == [] || IsRooted(b) then b
    else if IsDirectorySeparator(a[|a| - 1]) then a + b
    else a + "\\" + b
  }

  /** Position of the last directory separator in `p`, or -1 when it has none. */
  function LastSeparator(p: string): (r: int)
    ensures -1 <= r < |p|
    ensures r >= 0 ==> IsDirectorySeparator(p[r])
    ensures forall k :: r < k < |p| ==> !IsDirectorySeparator(p[k])
    decreases |p|
  {
    if |p| == 0 then -1
    else if IsDirectorySeparator(p[|p| - 1]) then |p| - 1
    else LastSeparator(p[..|p| - 1])
  }

  /** `Path.GetFileName(p)`: what follows the last directory separator. */
  function GetFileName(p: string): string {
    p[LastSeparator(p) + 1..]
  }

  /** `Path.GetDirectoryName(p)`: what precedes the last directory separator. */
  function GetDirectoryName(p: string): string {
    if LastSeparator(p) >= 0 then p[..LastSeparator(p)] else ""
  }

  /** A path is its directory name, a separator and its file name. */
  lemma DirectoryAndFileName(p: string)
    requires LastSeparator(p) >= 0
    ensures p == GetDirectoryName(p) + [p[LastSeparator(p)]] + GetFileName(p)
  {
  }

  /** In `dir\name` with no separator in `name`, the last separator is the one
      after `dir`: the file name is `name` and the directory name is `dir`. */
  lemma SplitAtLastSeparator(dir: string, name: string)
    requires forall k :: 0 <= k < |name| ==> !IsDirectorySeparator(name[k])
    ensures GetFileName(dir + "\\" + name) == name
    ensures GetDirectoryName(dir + "\\" + name) == dir
  {
    var p := dir + "\\" + name;
    assert IsDirectorySeparator(p[|dir|]);
    assert forall k :: |dir| < k < |p| ==> p[k] == name[k - |dir| - 1];
    assert p[|dir| + 1..] == name;
  }
}

/** The JavaScript string operations the core relies on: character classes of
    regular expressions, `toLowerCase`, `includes`, `indexOf`, `split`, `join`
    and `trim`. Strings are sequences of Unicode scalar values. */
module Text {

  /** `\d` */
  predicate IsDigit(c: char) { '0' <= c <= '9' }

  predicate IsAsciiLetter(c: char) { 'A' <= c <= 'Z' || 'a' <= c <= 'z' }

  /** `[a-zA-Z0-9]` */
  predicate IsAlnum(c: char) { IsAsciiLetter(c) || IsDigit(c) }

  /** `\w` */
  predicate IsWordChar(c: char) { IsAlnum(c) || c == '_' }

  /** `\s`, which is also the set of characters `trim` removes: the white space
      and line terminator characters of ECMAScript. */
  predicate IsSpace(c: char) {
    c == '\t' || c == '\n' || c == '\U{000B}' || c == '\U{000C}' || c == '\r' || c == ' '
    || c == '\U{00A0}' || c == '\U{1680}' || ('\U{2000}' <= c <= '\U{200A}')
    || c == '\U{2028}' || c == '\U{2029}' || c == '\U{202F}' || c == '\U{205F}'
    || c == '\U{3000}' || c == '\U{FEFF}'
  }

  /** `toLowerCase` restricted to ASCII letters. */
  function LowerChar(c: char): char {
    if 'A' <= c <= 'Z' then (c as int + 32) as char else c
  }

  function Lower(s: string): (r: string)
    ensures |r| == |s|
    ensures forall i :: 0 <= i < |s| ==> r[i] == LowerChar(s[i])
  {
    seq(|s|, i requires 0 <= i < |s| => LowerChar(s[i]))
  }

  /** `p` occurs in `s` starting at index `i`. */
  predicate OccursAt(s: string, p: string, i: int) {
    0 <= i && i + |p| <= |s| && s[i..i + |p|] == p
  }

  /** `s.includes(p)` */
  predicate Contains(s: string, p: string) {
    exists i :: 0 <= i <= |s| - |p| && OccursAt(s, p, i)
  }

  /** `list.some(p => s.includes(p))` */
  predicate ContainsAny(s: string, list: seq<string>) {
    exists k :: 0 <= k < |list| && Contains(s, list[k])
  }

  /** `s.indexOf(c)`, with `|s|` in place of -1. */
  function IndexOf(s: string, c: char): (k: nat)
    ensures k <= |s|
    ensures k < |s| ==> s[k] == c
    ensures forall j :: 0 <= j < k ==> s[j] != c
  {
    if s == [] || s[0] == c then 0 else 1 + IndexOf(s[1..], c)
  }

  /** `s.split(c)` for a one-character separator: the texts between the
      separators, always at least one. */
  function Split(s: string, c: char): (parts: seq<string>)
    ensures |parts| >= 1
    ensures forall k :: 0 <= k < |parts| ==> c !in parts[k]
    decreases |s|
  {
    var k := IndexOf(s, c);
    if k == |s| then [s] else [s[..k]] + Split(s[k + 1..], c)
  }

  /** `parts.join(sep)` */
  function Join(parts: seq<string>, sep: char): string
    decreases |parts|
  {
    if parts == [] then ""
    else if |parts| == 1 then parts[0]
    else parts[0] + [sep] + Join(parts[1..], sep)
  }

  lemma IndexOfAbsent(s: string, c: char)
    requires c !in s
    ensures IndexOf(s, c) == |s|
  {
  }

  lemma IndexOfAfter(a: string, c: char, rest: string)
    requires c !in a
    ensures IndexOf(a + [c] + rest, c) == |a|
  {
    var s := a + [c] + rest;
    assert forall j :: 0 <= j < |a| ==> s[j] == a[j];
    assert s[|a|] == c;
  }

  /** Splitting at a first separator that follows `a`. */
  lemma SplitAfter(a: string, c: char, rest: string)
    requires c !in a
    ensures Split(a + [c] + rest, c) == [a] + Split(rest, c)
  {
    var s := a + [c] + rest;
    IndexOfAfter(a, c, rest);
    assert s[..|a|] == a;
    assert s[|a| + 1..] == rest;
  }

  /** Splitting `a c b c e`, where none of the three pieces holds `c`. */
  lemma SplitThree(a: string, b: string, e: string, c: char)
    requires c !in a && c !in b && c !in e
    ensures Split(a + [c] + b + [c] + e, c) == [a, b, e]
  {
    assert a + [c] + b + [c] + e == a + [c] + (b + [c] + e);
    SplitAfter(a, c, b + [c] + e);
    SplitAfter(b, c, e);
    SplitAbsent(e, c);
  }

  lemma JoinThree(a: string, b: string, e: string, c: char)
    ensures Join([a, b, e], c) == a + [c] + b + [c] + e
  {
    assert [a, b, e][1..] == [b, e];
    assert [b, e][1..] == [e];
    assert Join([b, e], c) == b + [c] + e;
    assert a + [c] + (b + [c] + e) == a + [c] + b + [c] + e;
  }

  /** The first piece of a split is the text before the first separator. */
  lemma SplitFirst(s: string, c: char)
    ensures Split(s, c)[0] == s[..IndexOf(s, c)]
  {
  }

  /** A string without the separator splits into itself. */
  lemma SplitAbsent(s: string, c: char)
    requires c !in s
    ensures Split(s, c) == [s]
  {
    IndexOfAbsent(s, c);
  }

  /** The last piece of a split is the suffix after the last separator. */
  lemma {:induction false} SplitLast(s: string, c: char)
    ensures exists k :: (0 <= k <= |s| && (k == 0 || s[k - 1] == c)
      && Split(s, c)[|Split(s, c)| - 1] == s[k..])
    decreases |s|
  {
    var i := IndexOf(s, c);
    var parts := Split(s, c);
    if i == |s| {
      assert parts == [s] && s[0..] == s;
    } else {
      var t := s[i + 1..];
      var rest := Split(t, c);
      assert parts == [s[..i]] + rest;
      SplitLast(t, c);
      var k' :| 0 <= k' <= |t| && (k' == 0 || t[k' - 1] == c) && rest[|rest| - 1] == t[k'..];
      var k := i + 1 + k';
      assert s[k..] == t[k'..];
      assert s[k - 1] == c;
      assert parts[|parts| - 1] == rest[|rest| - 1];
    }
  }

  /** A string ending in a separator and a separator-free `b` splits into
      pieces the last of which is `b`. */
  lemma {:induction false} SplitEndsWith(a: string, c: char, b: string)
    requires c !in b
    ensures Split(a + [c] + b, c)[|Split(a + [c] + b, c)| - 1] == b
    decreases |a|
  {
    if c !in a {
      SplitAfter(a, c, b);
      SplitAbsent(b, c);
    } else {
      var i := IndexOf(a, c);
      var a0, a1 := a[..i], a[i + 1..];
      assert a == a0 + [c] + a1;
      assert a + [c] + b == a0 + [c] + (a1 + [c] + b);
      SplitAfter(a0, c, a1 + [c] + b);
      SplitEndsWith(a1, c, b);
    }
  }

  /** Number of white-space characters at the start of `s`. */
  function LeadingSpaces(s: string): (n: nat)
    ensures n <= |s|
    ensures forall i :: 0 <= i < n ==> IsSpace(s[i])
    ensures n < |s| ==> !IsSpace(s[n])
  {
    if s == [] || !IsSpace(s[0]) then 0 else 1 + LeadingSpaces(s[1..])
  }

  /** Number of white-space characters at the end of `s`. */
  function TrailingSpaces(s: string): (n: nat)
    ensures n <= |s|
    ensures forall i :: |s| - n <= i < |s| ==> IsSpace(s[i])
    ensures n < |s| ==> !IsSpace(s[|s| - 1 - n])
  {
    if s == [] || !IsSpace(s[|s| - 1]) then 0 else 1 + TrailingSpaces(s[..|s| - 1])
  }

  /** Where the trimmed text starts ... */
  function TrimLo(s: string): nat
  {
    LeadingSpaces(s)
  }

  /** ... and where it ends. */
  function TrimHi(s: string): (hi: nat)
    ensures TrimLo(s) <= hi <= |s|
  {
    var lo := LeadingSpaces(s);
    var t := TrailingSpaces(s);
    if |s| - t < lo then lo else |s| - t
  }

  /** `s.trim()`: a slice of `s` with only white space outside it, which neither
      starts nor ends with white space. */
  function Trim(s: string): (r: string)
    ensures r == s[TrimLo(s)..TrimHi(s)]
    ensures forall i :: 0 <= i < TrimLo(s) ==> IsSpace(s[i])
    ensures forall i :: TrimHi(s) <= i < |s| ==> IsSpace(s[i])
    ensures r != [] ==> !IsSpace(r[0]) && !IsSpace(r[|r| - 1])
  {
    s[TrimLo(s)..TrimHi(s)]
  }
}

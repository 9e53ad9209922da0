/** The pieces of Python's `str` that the server's parsers rely on:
    `isspace`, `strip`, `splitlines`, `split(None, n)`, `lower`, substring
    tests, and the code-point ordering that `sort` uses on strings. */
module Text {

  /** Python's `str.isspace()`: tab to carriage return, the information
      separators U+001C..U+001F, space, and the Unicode separators. */
  predicate IsSpace(c: char)
  {
    || ('\t' <= c <= '\r')
    || ('\U{1C}' <= c <= ' ')
    || c == '\U{85}' || c == '\U{A0}' || c == '\U{1680}'
    || ('\U{2000}' <= c <= '\U{200A}')
    || c == '\U{2028}' || c == '\U{2029}' || c == '\U{202F}'
    || c == '\U{205F}' || c == '\U{3000}'
  }

  /** The line boundaries of Python's `str.splitlines()`. */
  predicate IsLineBreak(c: char)
  {
    || c == '\n' || c == '\r' || c == '\U{0B}' || c == '\U{0C}'
    || ('\U{1C}' <= c <= '\U{1E}')
    || c == '\U{85}' || c == '\U{2028}' || c == '\U{2029}'
  }

  predicate AllSpace(s: string)
  {
    forall i :: 0 <= i < |s| ==> IsSpace(s[i])
  }

  /** A non-empty string with no whitespace in it: one field of `split()`. */
  predicate IsToken(s: string)
  {
    s != [] && forall i :: 0 <= i < |s| ==> !IsSpace(s[i])
  }

  /** A string with no whitespace at either end, as `strip()` leaves it. */
  predicate IsStripped(s: string)
  {
    s == [] || (!IsSpace(s[0]) && !IsSpace(s[|s| - 1]))
  }

  /** `s.lstrip()`: drops the leading whitespace and nothing else. */
  function LStrip(s: string): (r: string)
    ensures |r| <= |s|
    ensures r != [] ==> !IsSpace(r[0]) && r[0] == s[|s| - |r|]
    ensures forall i :: 0 <= i < |s| - |r| ==> IsSpace(s[i])
    decreases |s|
  {
    if s != [] && IsSpace(s[0]) then LStrip(s[1..]) else s
  }

  /** `s.rstrip()`: drops the trailing whitespace and nothing else. */
  function RStrip(s: string): (r: string)
    ensures |r| <= |s|
    ensures r != [] ==> !IsSpace(r[|r| - 1]) && r[0] == s[0]
    ensures forall i :: |r| <= i < |s| ==> IsSpace(s[i])
    decreases |s|
  {
    if s != [] && IsSpace(s[|s| - 1]) then RStrip(s[..|s| - 1]) else s
  }

  /** `s.strip()`. */
  function Strip(s: string): (r: string)
    ensures IsStripped(r)
    ensures r == [] <==> AllSpace(s)
    ensures IsStripped(s) ==> r == s
  {
    var l := LStrip(s);
    var r := RStrip(l);
    assert r != [] ==> r[0] == l[0];
    assert IsStripped(s) && s != [] ==> l == s;
    r
  }

  /** The length of the first line of `s`: the index of its first line break. */
  function LineEnd(s: string): (i: nat)
    ensures i <= |s|
    ensures forall k :: 0 <= k < i ==> !IsLineBreak(s[k])
    ensures i < |s| ==> IsLineBreak(s[i])
  {
    if s == [] || IsLineBreak(s[0]) then 0 else 1 + LineEnd(s[1..])
  }

  predicate NoLineBreak(s: string)
  {
    forall k :: 0 <= k < |s| ==> !IsLineBreak(s[k])
  }

  /** `s.splitlines()`: "\r\n" is one boundary, and a final boundary does not
      start an empty last line. */
  function SplitLines(s: string): (lines: seq<string>)
    ensures forall k :: 0 <= k < |lines| ==> NoLineBreak(lines[k])
    decreases |s|
  {
    if s == [] then []
    else
      var i := LineEnd(s);
      if i == |s| then [s]
      else
        var next := if s[i] == '\r' && i + 1 < |s| && s[i + 1] == '\n' then i + 2 else i + 1;
        [s[..i]] + SplitLines(s[next..])
  }

  /** The text a command prints when it prints `lines`, one per line. */
  function JoinLines(lines: seq<string>): string
  {
    if lines == [] then [] else lines[0] + "\n" + JoinLines(lines[1..])
  }

  /** Printing lines that hold no line break and reading them back with
      `splitlines` gives the same lines. */
  lemma {:induction false} SplitLinesJoinLines(lines: seq<string>)
    requires forall k :: 0 <= k < |lines| ==> NoLineBreak(lines[k])
    ensures SplitLines(JoinLines(lines)) == lines
  {
    if lines != [] {
      SplitLinesOfFirst(lines[0], JoinLines(lines[1..]));
      SplitLinesJoinLines(lines[1..]);
    }
  }

  /** A line and its line break, then the rest: the line comes first. */
  lemma SplitLinesOfFirst(l: string, rest: string)
    requires NoLineBreak(l)
    ensures SplitLines(l + "\n" + rest) == [l] + SplitLines(rest)
  {
    var s := l + "\n" + rest;
    assert s[|l|] == '\n';
    assert forall k :: 0 <= k < |l| ==> s[k] == l[k];
    LineEndOfLine(s, |l|);
    assert s[..|l|] == l;
    assert s[|l| + 1..] == rest;
  }

  lemma {:induction false} LineEndOfLine(s: string, n: nat)
    requires n < |s| && IsLineBreak(s[n])
    requires forall k :: 0 <= k < n ==> !IsLineBreak(s[k])
    ensures LineEnd(s) == n
    decreases n
  {
    if n > 0 {
      LineEndOfLine(s[1..], n - 1);
    }
  }

  /** The length of the first field of `s`: the index of its first whitespace. */
  function TokenEnd(s: string): (i: nat)
    ensures i <= |s|
    ensures forall k :: 0 <= k < i ==> !IsSpace(s[k])
    ensures i < |s| ==> IsSpace(s[i])
  {
    if s == [] || IsSpace(s[0]) then 0 else 1 + TokenEnd(s[1..])
  }

  /** `s.split(None, maxsplit)`: at most `maxsplit` whitespace-separated
      fields, then the rest of the string (without its leading whitespace) as
      one last part. */
  function SplitWs(s: string, maxsplit: nat): (parts: seq<string>)
    ensures |parts| <= maxsplit + 1
    ensures forall k :: 0 <= k < |parts| ==> parts[k] != []
    ensures forall k :: 0 <= k < |parts| && k < maxsplit ==> IsToken(parts[k])
    ensures parts == [] <==> AllSpace(s)
    decreases |s|
  {
    var t := LStrip(s);
    if t == [] then
      []
    else
      assert !IsSpace(s[|s| - |t|]);
      if maxsplit == 0 then
        [t]
      else
        var i := TokenEnd(t);
        var rest := SplitWs(t[i..], maxsplit - 1);
        assert IsToken(t[..i]);
        var parts := [t[..i]] + rest;
        assert forall k :: 1 <= k < |parts| ==> parts[k] == rest[k - 1];
        parts
  }

  /** Leading whitespace does not change what `split` returns. */
  lemma {:induction false} SplitWsSkipsSpace(s: string, maxsplit: nat)
    ensures SplitWs(" " + s, maxsplit) == SplitWs(s, maxsplit)
  {
    assert (" " + s)[1..] == s;
  }

  /** A field is split off exactly as it was written. */
  lemma {:induction false} SplitWsField(field: string, rest: string, maxsplit: nat)
    requires IsToken(field)
    ensures SplitWs(field + " " + rest, maxsplit + 1) == [field] + SplitWs(rest, maxsplit)
  {
    var s := field + " " + rest;
    assert LStrip(s) == s;
    TokenEndOfField(s, |field|);
    assert s[..|field|] == field;
    assert s[|field|..] == " " + rest;
    SplitWsSkipsSpace(rest, maxsplit);
  }

  /** A string that is one field splits into itself. */
  lemma {:induction false} SplitWsSingle(field: string, maxsplit: nat)
    requires IsToken(field)
    ensures SplitWs(field, maxsplit) == [field]
  {
    assert LStrip(field) == field;
    if maxsplit > 0 {
      TokenEndOfField(field, |field|);
      assert field[..|field|] == field;
      assert field[|field|..] == [];
      assert SplitWs([], maxsplit - 1) == [];
    }
  }

  /** The last part, once the fields are used up, is the stripped remainder. */
  lemma {:induction false} SplitWsRemainder(rest: string)
    requires rest != [] && IsStripped(rest)
    ensures SplitWs(rest, 0) == [rest]
  {
  }

  lemma {:induction false} TokenEndOfField(s: string, n: nat)
    requires n <= |s|
    requires forall k :: 0 <= k < n ==> !IsSpace(s[k])
    requires n < |s| ==> IsSpace(s[n])
    ensures TokenEnd(s) == n
    decreases n
  {
    if n > 0 {
      TokenEndOfField(s[1..], n - 1);
    }
  }

  /** `c.lower()` for the ASCII capitals; every other character is kept. */
  function LowerChar(c: char): char
  {
    if 'A' <= c <= 'Z' then (c as int + 32) as char else c
  }

  /** `s.lower()`, with the case mapping restricted to ASCII. */
  function Lower(s: string): string
  {
    seq(|s|, i requires 0 <= i < |s| => LowerChar(s[i]))
  }

  /** `s.startswith(p)`. */
  predicate StartsWith(s: string, p: string)
  {
    |p| <= |s| && s[..|p|] == p
  }

  /** `s.endswith(p)`. */
  predicate EndsWith(s: string, p: string)
  {
    |p| <= |s| && s[|s| - |p|..] == p
  }

  /** `p in s` for strings: `p` occurs in `s` at some offset. */
  predicate Contains(s: string, p: string)
  {
    StartsWith(s, p) || (s != [] && Contains(s[1..], p))
  }

  /** Python's `<` on strings: lexicographic by code point. */
  predicate Less(a: string, b: string)
  {
    if a == [] then b != []
    else if b == [] then false
    else if a[0] != b[0] then a[0] < b[0]
    else Less(a[1..], b[1..])
  }

  lemma {:induction false} LessIrreflexive(a: string)
    ensures !Less(a, a)
  {
    if a != [] {
      LessIrreflexive(a[1..]);
    }
  }

  lemma {:induction false} LessTransitive(a: string, b: string, c: string)
    requires Less(a, b) && Less(b, c)
    ensures Less(a, c)
  {
    if a != [] && b != [] && c != [] && a[0] == b[0] == c[0] {
      LessTransitive(a[1..], b[1..], c[1..]);
    }
  }

  lemma {:induction false} LessTotal(a: string, b: string)
    ensures a == b || Less(a, b) || Less(b, a)
  {
    if a != [] && b != [] && a[0] == b[0] {
      LessTotal(a[1..], b[1..]);
      if a[1..] == b[1..] {
        assert a == [a[0]] + a[1..] && b == [b[0]] + b[1..];
      }
    }
  }

  lemma LessAsymmetric(a: string, b: string)
    requires Less(a, b)
    ensures !Less(b, a)
  {
    if Less(b, a) {
      LessTransitive(a, b, a);
      LessIrreflexive(a);
    }
  }
}

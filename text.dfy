/** The two Python string operations the feature list is read with:
    `file.readlines()` and `str.strip()`. */
module PyText {

  /** `str.isspace()` of one character: the characters `str.strip()` removes. */
  predicate IsSpace(c: char) {
    || '\t' <= c <= '\r'                     // tab, line feed, vertical tab, form feed, carriage return
    || '\U{1C}' <= c <= '\U{1F}'             // file, group, record and unit separators
    || c == ' ' || c == '\U{85}' || c == '\U{A0}' || c == '\U{1680}'
    || '\U{2000}' <= c <= '\U{200A}'
    || c == '\U{2028}' || c == '\U{2029}' || c == '\U{202F}' || c == '\U{205F}' || c == '\U{3000}'
  }

  /** Drops the leading whitespace: what is left is a suffix of `s` starting with a non-space. */
  function TrimStart(s: string): (r: string)
    ensures |r| <= |s| && r == s[|s| - |r|..]
    ensures forall i :: 0 <= i < |s| - |r| ==> IsSpace(s[i])
    ensures r != [] ==> !IsSpace(r[0])
  {
    if s != [] && IsSpace(s[0]) then TrimStart(s[1..]) else s
  }

  /** Drops the trailing whitespace: what is left is a prefix of `s` ending in a non-space. */
  function TrimEnd(s: string): (r: string)
    ensures |r| <= |s| && r == s[..|r|]
    ensures forall i :: |r| <= i < |s| ==> IsSpace(s[i])
    ensures r != [] ==> !IsSpace(r[|r| - 1])
  {
    if s != [] && IsSpace(s[|s| - 1]) then TrimEnd(s[..|s| - 1]) else s
  }

  /** `s.strip()`. */
  function Strip(s: string): (r: string)
    ensures r != [] ==> !IsSpace(r[0]) && !IsSpace(r[|r| - 1])
  {
    TrimEnd(TrimStart(s))
  }

  /** `Strip` removes exactly the whitespace around the text and nothing else: for any split
      of `s` into blank head, a body that starts and ends in non-space, and blank tail, the
      result is that body. */
  lemma StripIsBodyBetweenBlanks(s: string, a: nat, b: nat)
    requires a <= b <= |s|
    requires forall i :: 0 <= i < a ==> IsSpace(s[i])
    requires forall i :: b <= i < |s| ==> IsSpace(s[i])
    requires a < b ==> !IsSpace(s[a]) && !IsSpace(s[b - 1])
    ensures Strip(s) == s[a..b]
  {
  }

  /** Stripping a stripped line changes nothing. */
  lemma StripIdempotent(s: string)
    ensures Strip(Strip(s)) == Strip(s)
  {
  }

  /** The concatenation of a list of lines. */
  function Concat(lines: seq<string>): string {
    if lines == [] then [] else lines[0] + Concat(lines[1..])
  }

  /** A line that a line feed terminates. */
  predicate EndsWithLineFeed(line: string) {
    line != [] && line[|line| - 1] == '\n'
  }

  /** One line as `readlines()` returns it: non-empty, with a line feed at most at its end. */
  predicate IsLine(line: string) {
    line != [] && '\n' !in line[..|line| - 1]
  }

  /** `readlines()` on a text: each line keeps its terminating line feed. */
  function ReadLines(text: string): (lines: seq<string>)
    ensures lines == [] <==> text == []
  {
    if text == [] then []
    else
      var rest := ReadLines(text[1..]);
      if text[0] == '\n' || rest == [] then [[text[0]]] + rest
      else [[text[0]] + rest[0]] + rest[1..]
  }

  /** The lines cut the text without loss: they concatenate back to it, each is one line, and
      every line but the last ends with a line feed. */
  lemma {:induction false} ReadLinesSplitsAtLineFeeds(text: string)
    ensures Concat(ReadLines(text)) == text
    ensures forall i :: 0 <= i < |ReadLines(text)| ==> IsLine(ReadLines(text)[i])
    ensures forall i :: 0 <= i < |ReadLines(text)| - 1 ==> EndsWithLineFeed(ReadLines(text)[i])
  {
    if text != [] {
      var rest := ReadLines(text[1..]);
      ReadLinesSplitsAtLineFeeds(text[1..]);
      var lines := ReadLines(text);
      if text[0] == '\n' || rest == [] {
        assert lines == [[text[0]]] + rest;
        assert lines[1..] == rest;
        if rest == [] {
          assert text[1..] == [];
        }
        assert Concat(lines) == [text[0]] + Concat(rest);
        assert forall i :: 1 <= i < |lines| ==> lines[i] == rest[i - 1];
      } else {
        var first := [text[0]] + rest[0];
        assert lines == [first] + rest[1..];
        assert Concat(rest) == rest[0] + Concat(rest[1..]);
        assert Concat(lines) == first + Concat(rest[1..]);
        assert first[..|first| - 1] == [text[0]] + rest[0][..|rest[0]| - 1];
        assert forall i :: 1 <= i < |lines| ==> lines[i] == rest[i];
      }
    }
  }

  /** A stripped line holds no line feed: the only one a line can have is at its end, and it is blank. */
  lemma StrippedLineHasNoLineFeed(line: string)
    requires IsLine(line)
    ensures '\n' !in Strip(line)
  {
  }
}

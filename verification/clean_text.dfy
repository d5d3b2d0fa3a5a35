/**
 The six passes of `clean_text` (utils/extract.py, lines 16-23), each a
 recursive function over `string`, and their composition `CleanText`.

 Python's `str.replace` and `re.sub` scan left to right and never reuse a
 character that is already part of a match; every pass below recurses on
 the rest of the string after a match in the same way.
 */
module Cleaning {
  import opened Strings

  /** The six-character sentinel that pass 2 writes for a paragraph break
      and pass 4 expands again. */
  const Marker: string := "<PARA>"

  /** Every newline of `s` is half of a `"\n\n"` pair, pairing from the
      left: every maximal run of newlines has even length. */
  predicate PairedNewlines(s: string)
    decreases |s|
  {
    if |s| == 0 then true
    else if s[0] == '\n' then |s| >= 2 && s[1] == '\n' && PairedNewlines(s[2..])
    else PairedNewlines(s[1..])
  }

  // ---------------------------------------------------------------------
  // Pass 1 (line 18): text.replace('\r\n', '\n').replace('\r', '\n')
  // ---------------------------------------------------------------------

  /** `s` begins with a CR-LF pair. */
  predicate IsCrLf(s: string) {
    |s| >= 2 && s[0] == '\r' && s[1] == '\n'
  }

  /** `s.replace('\r\n', '\n')`: each CR-LF pair loses its CR. */
  function ReplaceCrLf(s: string): (r: string)
    ensures |r| <= |s|
    ensures |s| > 0 ==> |r| > 0 && (r[0] == s[0] || (s[0] == '\r' && r[0] == '\n'))
    ensures '\r' !in s ==> r == s
    ensures forall c :: c in r ==> c in s
    decreases |s|
  {
    if IsCrLf(s) then "\n" + ReplaceCrLf(s[2..])
    else if |s| == 0 then []
    else [s[0]] + ReplaceCrLf(s[1..])
  }

  /** `s.replace('\r', '\n')`: every remaining CR becomes LF. */
  function ReplaceCr(s: string): (r: string)
    ensures |r| == |s| && '\r' !in r
    ensures forall i :: 0 <= i < |s| ==> r[i] == s[i] || (s[i] == '\r' && r[i] == '\n')
    decreases |s|
  {
    if |s| == 0 then []
    else [if s[0] == '\r' then '\n' else s[0]] + ReplaceCr(s[1..])
  }

  // ---------------------------------------------------------------------
  // Pass 2 (line 19): re.sub(r'\n{2,}', '<PARA>', text)
  // ---------------------------------------------------------------------

  /** Each maximal run of two or more newlines becomes `Marker`; a lone
      newline stays. */
  function MarkParagraphs(s: string): (r: string)
    ensures |s| > 0 ==> |r| > 0 && (r[0] == s[0] || (s[0] == '\n' && r[0] == '<'))
    ensures forall c :: c in r ==> c in s || c in Marker
    decreases |s|
  {
    if |s| == 0 then []
    else if s[0] == '\n' then
      var k := RunLength(s, '\n');
      if k >= 2 then Marker + MarkParagraphs(s[k..])
      else "\n" + MarkParagraphs(s[1..])
    else [s[0]] + MarkParagraphs(s[1..])
  }

  // ---------------------------------------------------------------------
  // Pass 3 (line 20): text.replace('\n', ' ')
  // ---------------------------------------------------------------------

  /** Every newline left after pass 2 becomes a space. */
  function JoinLines(s: string): (r: string)
    ensures |r| == |s| && '\n' !in r
    ensures forall i :: 0 <= i < |s| ==> r[i] == s[i] || (s[i] == '\n' && r[i] == ' ')
    decreases |s|
  {
    if |s| == 0 then []
    else [if s[0] == '\n' then ' ' else s[0]] + JoinLines(s[1..])
  }

  // ---------------------------------------------------------------------
  // Pass 4 (line 21): text.replace('<PARA>', '\n\n')
  // ---------------------------------------------------------------------

  /** Every occurrence of `Marker` becomes a blank line. */
  function RestoreParagraphs(s: string): (r: string)
    ensures forall c :: c in r ==> c in s || c == '\n'
    decreases |s|
  {
    if StartsWith(s, Marker) then
      var rest := RestoreParagraphs(s[|Marker|..]);
      assert ("\n\n" + rest)[2..] == rest;
      "\n\n" + rest
    else if |s| == 0 then []
    else
      var rest := RestoreParagraphs(s[1..]);
      assert ([s[0]] + rest)[1..] == rest;
      [s[0]] + rest
  }

  // ---------------------------------------------------------------------
  // Pass 5 (line 22): re.sub(r' +', ' ', text)
  // ---------------------------------------------------------------------

  /** Each maximal run of spaces becomes one space: a space that is
      followed by another space is dropped. Tabs and other whitespace are
      left alone. */
  function CollapseSpaces(s: string): (r: string)
    ensures |s| > 0 ==> |r| > 0 && r[0] == s[0]
    ensures !Contains(r, "  ")
    ensures forall c :: c in r ==> c in s
    decreases |s|
  {
    if |s| == 0 then []
    else if StartsWith(s, "  ") then CollapseSpaces(s[1..])
    else
      var rest := CollapseSpaces(s[1..]);
      assert ([s[0]] + rest)[1..] == rest;
      [s[0]] + rest
  }

  // ---------------------------------------------------------------------
  // Pass 6 (line 23): text.strip()
  // ---------------------------------------------------------------------

  /** How many whitespace characters `s` starts with. */
  function LeadingSpaces(s: string): (n: nat)
    ensures n <= |s|
    ensures forall i :: 0 <= i < n ==> IsSpace(s[i])
    ensures n < |s| ==> !IsSpace(s[n])
    decreases |s|
  {
    if |s| > 0 && IsSpace(s[0]) then 1 + LeadingSpaces(s[1..]) else 0
  }

  /** Where the trailing whitespace of `s` begins. */
  function TrailingStart(s: string): (n: nat)
    ensures n <= |s|
    ensures forall i :: n <= i < |s| ==> IsSpace(s[i])
    ensures 0 < n ==> !IsSpace(s[n - 1])
    decreases |s|
  {
    if |s| > 0 && IsSpace(s[|s| - 1]) then TrailingStart(s[..|s| - 1]) else |s|
  }

  /** Drops the leading whitespace. */
  function StripLeading(s: string): string {
    s[LeadingSpaces(s)..]
  }

  /** Drops the trailing whitespace. */
  function StripTrailing(s: string): string {
    s[..TrailingStart(s)]
  }

  /** `s.strip()`: whitespace removed from both ends. */
  function Strip(s: string): (r: string)
    ensures r == [] || (!IsSpace(r[0]) && !IsSpace(r[|r| - 1]))
    ensures (s == [] || (!IsSpace(s[0]) && !IsSpace(s[|s| - 1]))) ==> r == s
  {
    StripTrailing(StripLeading(s))
  }

  // ---------------------------------------------------------------------
  // The pipeline (lines 16-23)
  // ---------------------------------------------------------------------

  /** `clean_text(text)`. Its shape, its visible text and its fixed
      points are stated in `CleanTextProperties`. */
  function CleanText(s: string): (r: string)
    ensures r == [] || (!IsSpace(r[0]) && !IsSpace(r[|r| - 1]))
  {
    Strip(CollapseSpaces(RestoreParagraphs(JoinLines(MarkParagraphs(ReplaceCr(ReplaceCrLf(s)))))))
  }
}

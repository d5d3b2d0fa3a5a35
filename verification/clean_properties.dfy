/**
 Properties of the whole of `clean_text` (utils/extract.py, lines 16-23),
 assembled from the per-pass facts in `CleaningProofs`.
 */
module CleanTextProperties {
  import opened Strings
  import opened Cleaning
  import opened CleaningProofs

  /** No carriage return survives cleaning: pass 1 removes them all and
      no later pass introduces one. */
  lemma {:induction false} CleanHasNoCr(s: string)
    ensures '\r' !in CleanText(s)
  {
    var b := ReplaceCr(ReplaceCrLf(s));
    var m := MarkParagraphs(b);
    MarkerHasNoSpace();
    assert '\r' !in m;
    var j := JoinLines(m);
    assert '\r' !in j;
    var c := RestoreParagraphs(j);
    assert '\r' !in c;
    var d := CollapseSpaces(c);
    assert '\r' !in d;
    var l := StripLeading(d);
    assert '\r' !in l;
    var r := StripTrailing(l);
    assert '\r' !in r;
  }

  /** What every cleaned string looks like, whatever the input: no CR, no
      two adjacent spaces, no whitespace at either end, and every newline
      inside a `"\n\n"` pair (so none stands alone). */
  lemma {:induction false} CleanTextShape(s: string)
    ensures '\r' !in CleanText(s)
    ensures !Contains(CleanText(s), "  ")
    ensures CleanText(s) == [] || (!IsSpace(CleanText(s)[0]) && !IsSpace(CleanText(s)[|CleanText(s)| - 1]))
    ensures PairedNewlines(CleanText(s))
    ensures NoLoneNewline(CleanText(s))
  {
    CleanHasNoCr(s);
    var c := RestoreParagraphs(JoinLines(MarkParagraphs(ReplaceCr(ReplaceCrLf(s)))));
    var d := CollapseSpaces(c);
    var r := Strip(d);
    assert r == CleanText(s);
    if Contains(r, "  ") {
      StripContains(d, "  ");
    }
    RestorePairsNewlines(JoinLines(MarkParagraphs(ReplaceCr(ReplaceCrLf(s)))));
    CollapsePaired(c);
    StripPaired(d);
    PairedNewlinesHaveNeighbours(r);
  }

  /** Cleaning changes only whitespace, except that a literal `"<PARA>"` in
      the input comes out as a paragraph break: deleting all whitespace
      from the output gives the same as deleting it from the input with
      each `"<PARA>"` expanded. Without a literal sentinel, deleting all
      whitespace from input and output gives the same string. */
  lemma {:induction false} CleanChangesOnlyWhitespace(s: string)
    ensures Visible(CleanText(s)) == Visible(RestoreParagraphs(s))
    ensures !Contains(s, Marker) ==> Visible(CleanText(s)) == Visible(s)
  {
    var a := ReplaceCrLf(s);
    var b := ReplaceCr(a);
    var c := Passes(b);
    var d := CollapseSpaces(c);
    StripVisible(d);
    CollapseVisible(c);
    PassesKeepVisible(b);
    RestoreAfterCrVisible(a);
    RestoreAfterCrLfVisible(s);
    if !Contains(s, Marker) {
      RestoreWithoutMarker(s);
    }
  }

  /** Pass 1a creates no sentinel anywhere. */
  lemma {:induction false} NoMarkerThroughCrLf(s: string)
    requires !Contains(s, Marker)
    ensures !Contains(ReplaceCrLf(s), Marker)
  {
    MarkerHasNoSpace();
    if Contains(ReplaceCrLf(s), Marker) {
      ReplaceCrLfContains(s, Marker);
    }
  }

  /** Pass 1b creates no sentinel anywhere. */
  lemma {:induction false} NoMarkerThroughCr(a: string)
    requires !Contains(a, Marker)
    ensures !Contains(ReplaceCr(a), Marker)
  {
    MarkerHasNoSpace();
    if Contains(ReplaceCr(a), Marker) {
      ContainsThroughReplace(a, ReplaceCr(a), '\n', Marker);
    }
  }

  /** Cleaning is its first pass, the next three, then the last two. */
  lemma {:induction false} CleanTextByStages(s: string)
    ensures CleanText(s) == Strip(CollapseSpaces(Passes(ReplaceCr(ReplaceCrLf(s)))))
  {
  }

  /** On input without a literal sentinel, the first five passes are
      line-ending translation followed by `ReflowLines`. */
  lemma {:induction false} CleanTextIsReflow(s: string)
    requires !Contains(s, Marker)
    ensures !Contains(UniversalNewlines(s), Marker)
    ensures CleanText(s) == Strip(CollapseSpaces(ReflowLines(UniversalNewlines(s))))
  {
    var a := ReplaceCrLf(s);
    LineEndingsAreUniversalNewlines(s);
    NoMarkerThroughCrLf(s);
    NoMarkerThroughCr(a);
    PassesAreReflow(ReplaceCr(a));
    CleanTextByStages(s);
  }

  /** Passes 5 and 6 create no block free of spaces. */
  lemma {:induction false} LastPassesAddNothing(c: string, w: string)
    requires ' ' !in w && !Contains(c, w)
    ensures !Contains(Strip(CollapseSpaces(c)), w)
  {
    var d := CollapseSpaces(c);
    if Contains(Strip(d), w) {
      StripContains(d, w);
      CollapseContains(c, w);
    }
  }

  /** Passes 5 and 6 create no run of three newlines. */
  lemma {:induction false} LastPassesAddNoTriple(c: string)
    requires !Contains(c, "\n\n\n")
    ensures !Contains(Strip(CollapseSpaces(c)), "\n\n\n")
  {
    LastPassesAddNothing(c, "\n\n\n");
  }

  /** Passes 5 and 6 create no sentinel. */
  lemma {:induction false} LastPassesAddNoMarker(c: string)
    requires !Contains(c, Marker)
    ensures !Contains(Strip(CollapseSpaces(c)), Marker)
  {
    MarkerHasNoSpace();
    LastPassesAddNothing(c, Marker);
  }

  /** `ReflowLines` leaves no sentinel behind if there was none. */
  lemma {:induction false} ReflowKeepsNoMarker(b: string)
    requires !Contains(b, Marker)
    ensures !Contains(ReflowLines(b), Marker)
  {
    MarkerHasNoSpace();
    if Contains(ReflowLines(b), Marker) {
      ReflowContains(b, Marker);
    }
  }

  /** Without a literal sentinel in the input, every newline run of the
      output is exactly one blank line, and no sentinel is left behind. */
  lemma {:induction false} CleanBreaksAreBlankLines(s: string)
    requires !Contains(s, Marker)
    ensures PairedNewlines(CleanText(s))
    ensures !Contains(CleanText(s), "\n\n\n")
    ensures !Contains(CleanText(s), Marker)
  {
    CleanTextShape(s);
    CleanTextIsReflow(s);
    var b := UniversalNewlines(s);
    ReflowNoTripleBreak(b);
    ReflowKeepsNoMarker(b);
    LastPassesAddNoTriple(ReflowLines(b));
    LastPassesAddNoMarker(ReflowLines(b));
  }

  /** A string of the shape cleaning produces is left unchanged by it. */
  lemma {:induction false} CleanFixesNormalised(t: string)
    requires Normalised(t)
    ensures CleanText(t) == t
  {
    assert ReplaceCrLf(t) == t;
    assert ReplaceCr(t) == t;
    PassesAreReflow(t);
    ReflowFixesPairs(t);
    CollapseWithoutDoubleSpace(t);
  }

  /** Without a literal sentinel in the input, the output has that shape. */
  lemma {:induction false} CleanTextIsNormalised(s: string)
    requires !Contains(s, Marker)
    ensures Normalised(CleanText(s))
  {
    CleanTextShape(s);
    CleanBreaksAreBlankLines(s);
  }

  /** Cleaning is idempotent on input without a literal sentinel. */
  lemma {:induction false} CleanTextIdempotent(s: string)
    requires !Contains(s, Marker)
    ensures CleanText(CleanText(s)) == CleanText(s)
  {
    CleanTextIsNormalised(s);
    CleanFixesNormalised(CleanText(s));
  }
}

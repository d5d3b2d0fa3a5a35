/**
 Properties of `clean_text` (utils/extract.py, lines 16-23): what each pass
 guarantees, two reference definitions that say what the passes mean, and
 the properties of the whole pipeline.
 */
module CleaningProofs {
  import opened Strings
  import opened Cleaning

  // =====================================================================
  // Reference definitions
  // =====================================================================

  /** Line-ending translation in one scan: a CR-LF pair or a lone CR
      becomes one LF. */
  function UniversalNewlines(s: string): (r: string)
    ensures '\r' !in r
    decreases |s|
  {
    if IsCrLf(s) then "\n" + UniversalNewlines(s[2..])
    else if |s| == 0 then []
    else [if s[0] == '\r' then '\n' else s[0]] + UniversalNewlines(s[1..])
  }

  /** What passes 2-4 do to text without the sentinel: a run of two or
      more newlines becomes exactly one blank line, a lone newline becomes
      a space, and nothing else changes. */
  function ReflowLines(s: string): (r: string)
    ensures |s| > 0 ==> |r| > 0 && (r[0] == s[0] || (s[0] == '\n' && r[0] == ' '))
    decreases |s|
  {
    if |s| == 0 then []
    else if s[0] == '\n' then
      var k := RunLength(s, '\n');
      if k >= 2 then "\n\n" + ReflowLines(s[k..])
      else " " + ReflowLines(s[1..])
    else [s[0]] + ReflowLines(s[1..])
  }

  /** The shape every cleaned text has: no CR, no two adjacent spaces, no
      whitespace at either end, newlines only in `"\n\n"` pairs. */
  predicate Tidy(t: string) {
    && '\r' !in t
    && !Contains(t, "  ")
    && (t == [] || (!IsSpace(t[0]) && !IsSpace(t[|t| - 1])))
    && PairedNewlines(t)
  }

  /** The shape of a cleaned string whose input held no sentinel: tidy,
      with every newline run a single blank line and no sentinel left. */
  predicate Normalised(t: string) {
    Tidy(t) && !Contains(t, "\n\n\n") && !Contains(t, Marker)
  }

  // =====================================================================
  // Small facts about single passes
  // =====================================================================

  lemma VisibleCons(c: char, s: string)
    ensures Visible([c] + s) == Shown(c) + Visible(s)
  {
    assert ([c] + s)[1..] == s;
  }

  lemma {:induction false} ReplaceCrConcat(a: string, b: string)
    ensures ReplaceCr(a + b) == ReplaceCr(a) + ReplaceCr(b)
    decreases |a|
  {
    if |a| == 0 {
      assert a + b == b;
    } else {
      assert (a + b)[1..] == a[1..] + b;
      ReplaceCrConcat(a[1..], b);
    }
  }

  lemma {:induction false} JoinLinesConcat(a: string, b: string)
    ensures JoinLines(a + b) == JoinLines(a) + JoinLines(b)
    decreases |a|
  {
    if |a| == 0 {
      assert a + b == b;
    } else {
      assert (a + b)[1..] == a[1..] + b;
      JoinLinesConcat(a[1..], b);
    }
  }

  /** A leading character other than CR passes through pass 1a. */
  lemma ReplaceCrLfCons(c: char, z: string)
    requires c != '\r'
    ensures ReplaceCrLf([c] + z) == [c] + ReplaceCrLf(z)
  {
    var x := [c] + z;
    assert x[0] == c && !IsCrLf(x);
    assert x[1..] == z;
  }

  /** A leading character other than a newline passes through pass 2. */
  lemma MarkCons(c: char, z: string)
    requires c != '\n'
    ensures MarkParagraphs([c] + z) == [c] + MarkParagraphs(z)
  {
    var x := [c] + z;
    assert x[0] == c;
    assert x[1..] == z;
  }

  /** A leading character other than '<' passes through pass 4. */
  lemma RestoreCons(c: char, z: string)
    requires c != '<'
    ensures RestoreParagraphs([c] + z) == [c] + RestoreParagraphs(z)
  {
    var x := [c] + z;
    assert x[0] == c;
    assert !StartsWith(x, Marker) by {
      if |Marker| <= |x| {
        assert x[..|Marker|][0] == c;
      }
    }
    assert x[1..] == z;
  }

  /** A prefix without CR passes through pass 1a untouched. */
  lemma {:induction false} ReplaceCrLfPlainPrefix(w: string, z: string)
    requires '\r' !in w
    ensures ReplaceCrLf(w + z) == w + ReplaceCrLf(z)
    decreases |w|
  {
    if |w| == 0 {
      assert w + z == z;
    } else {
      var w1 := w[1..];
      assert w + z == [w[0]] + (w1 + z);
      calc {
        ReplaceCrLf(w + z);
        ReplaceCrLf([w[0]] + (w1 + z));
        { ReplaceCrLfCons(w[0], w1 + z); }
        [w[0]] + ReplaceCrLf(w1 + z);
        { ReplaceCrLfPlainPrefix(w1, z); }
        [w[0]] + (w1 + ReplaceCrLf(z));
        { assert [w[0]] + w1 == w; }
        w + ReplaceCrLf(z);
      }
    }
  }

  /** A prefix without newlines passes through pass 2 untouched. */
  lemma {:induction false} MarkPlainPrefix(w: string, z: string)
    requires '\n' !in w
    ensures MarkParagraphs(w + z) == w + MarkParagraphs(z)
    decreases |w|
  {
    if |w| == 0 {
      assert w + z == z;
    } else {
      var w1 := w[1..];
      assert w + z == [w[0]] + (w1 + z);
      calc {
        MarkParagraphs(w + z);
        MarkParagraphs([w[0]] + (w1 + z));
        { MarkCons(w[0], w1 + z); }
        [w[0]] + MarkParagraphs(w1 + z);
        { MarkPlainPrefix(w1, z); }
        [w[0]] + (w1 + MarkParagraphs(z));
        { assert [w[0]] + w1 == w; }
        w + MarkParagraphs(z);
      }
    }
  }

  /** A prefix without '<' passes through pass 4 untouched. */
  lemma {:induction false} RestorePlainPrefix(w: string, z: string)
    requires '<' !in w
    ensures RestoreParagraphs(w + z) == w + RestoreParagraphs(z)
    decreases |w|
  {
    if |w| == 0 {
      assert w + z == z;
    } else {
      var w1 := w[1..];
      assert w + z == [w[0]] + (w1 + z);
      calc {
        RestoreParagraphs(w + z);
        RestoreParagraphs([w[0]] + (w1 + z));
        { RestoreCons(w[0], w1 + z); }
        [w[0]] + RestoreParagraphs(w1 + z);
        { RestorePlainPrefix(w1, z); }
        [w[0]] + (w1 + RestoreParagraphs(z));
        { assert [w[0]] + w1 == w; }
        w + RestoreParagraphs(z);
      }
    }
  }

  /** A string with a leading CR-LF is `"\r\n"` followed by the rest. */
  lemma CrLfSplit(s: string)
    requires IsCrLf(s)
    ensures s == "\r\n" + s[2..]
  {
    assert s[..2] == "\r\n";
    assert s == s[..2] + s[2..];
  }

  /** The sentinel holds no whitespace. */
  lemma MarkerHasNoSpace()
    ensures ' ' !in Marker && '\n' !in Marker && '\r' !in Marker
  {
  }

  /** A blank line adds no visible text. */
  lemma BlankLineVisible(z: string)
    ensures Visible("\n\n" + z) == Visible(z)
  {
    VisibleAfterSpaces("\n\n", z);
  }

  /** Pass 4 expands a leading sentinel. */
  lemma RestoreMarker(z: string)
    ensures RestoreParagraphs(Marker + z) == "\n\n" + RestoreParagraphs(z)
  {
    assert StartsWith(Marker + z, Marker);
    assert (Marker + z)[|Marker|..] == z;
  }

  /** Pass 4 on text without newlines leaves newlines only in pairs. */
  lemma {:induction false} RestorePairsNewlines(s: string)
    requires '\n' !in s
    ensures PairedNewlines(RestoreParagraphs(s))
    decreases |s|
  {
    if StartsWith(s, Marker) {
      var z := s[|Marker|..];
      StartsWithSplit(s, Marker);
      RestoreMarker(z);
      RestorePairsNewlines(z);
      assert ("\n\n" + RestoreParagraphs(z))[2..] == RestoreParagraphs(z);
    } else if |s| > 0 {
      var rest := RestoreParagraphs(s[1..]);
      assert RestoreParagraphs(s) == [s[0]] + rest;
      RestorePairsNewlines(s[1..]);
      assert ([s[0]] + rest)[1..] == rest;
    }
  }

  /** Pass 4 leaves text without a sentinel unchanged. */
  lemma {:induction false} RestoreWithoutMarker(s: string)
    requires !Contains(s, Marker)
    ensures RestoreParagraphs(s) == s
    decreases |s|
  {
    if |s| > 0 {
      RestoreWithoutMarker(s[1..]);
      assert s == [s[0]] + s[1..];
    }
  }

  // =====================================================================
  // Pass 1: line endings
  // =====================================================================

  /** Pass 1a then pass 1b is universal-newline translation. */
  lemma {:induction false} LineEndingsAreUniversalNewlines(s: string)
    ensures ReplaceCr(ReplaceCrLf(s)) == UniversalNewlines(s)
    decreases |s|
  {
    if IsCrLf(s) {
      LineEndingsAreUniversalNewlines(s[2..]);
      ReplaceCrConcat("\n", ReplaceCrLf(s[2..]));
    } else if |s| > 0 {
      LineEndingsAreUniversalNewlines(s[1..]);
      ReplaceCrConcat([s[0]], ReplaceCrLf(s[1..]));
    }
  }

  /** Pass 1a only deletes whitespace. */
  lemma {:induction false} ReplaceCrLfVisible(s: string)
    ensures Visible(ReplaceCrLf(s)) == Visible(s)
    decreases |s|
  {
    if IsCrLf(s) {
      ReplaceCrLfVisible(s[2..]);
      VisibleCons('\n', ReplaceCrLf(s[2..]));
      CrLfSplit(s);
      VisibleConcat("\r\n", s[2..]);
      VisibleOfSpaces("\r\n");
    } else if |s| > 0 {
      ReplaceCrLfVisible(s[1..]);
      VisibleCons(s[0], ReplaceCrLf(s[1..]));
      VisibleCons(s[0], s[1..]);
      assert s == [s[0]] + s[1..];
    }
  }

  /** Pass 1b only turns CRs, which are whitespace, into LFs. */
  lemma {:induction false} ReplaceCrVisible(s: string)
    ensures Visible(ReplaceCr(s)) == Visible(s)
    decreases |s|
  {
    if |s| > 0 {
      var c := if s[0] == '\r' then '\n' else s[0];
      ReplaceCrVisible(s[1..]);
      assert ReplaceCr(s) == [c] + ReplaceCr(s[1..]);
      VisibleCons(c, ReplaceCr(s[1..]));
      VisibleCons(s[0], s[1..]);
      assert s == [s[0]] + s[1..];
    }
  }

  /** Undoing pass 1a: a block without LF in its output was already in
      its input. */
  lemma {:induction false} ReplaceCrLfStartsWith(s: string, w: string)
    requires '\n' !in w && StartsWith(ReplaceCrLf(s), w)
    ensures StartsWith(s, w)
    decreases |s|
  {
    if |w| > 0 && !IsCrLf(s) {
      assert ReplaceCrLf(s) == [s[0]] + ReplaceCrLf(s[1..]);
      ReplaceCrLfStartsWith(s[1..], w[1..]);
    }
  }

  lemma {:induction false} ReplaceCrLfContains(s: string, w: string)
    requires '\n' !in w && Contains(ReplaceCrLf(s), w)
    ensures Contains(s, w)
    decreases |s|
  {
    if StartsWith(ReplaceCrLf(s), w) {
      ReplaceCrLfStartsWith(s, w);
    } else if IsCrLf(s) {
      assert ReplaceCrLf(s)[1..] == ReplaceCrLf(s[2..]);
      ReplaceCrLfContains(s[2..], w);
      ContainsSuffix(s, 2, w);
    } else {
      assert ReplaceCrLf(s)[1..] == ReplaceCrLf(s[1..]);
      ReplaceCrLfContains(s[1..], w);
    }
  }

  // =====================================================================
  // Passes 2-4: paragraph marking, line joining, paragraph restoring
  // =====================================================================

  /** After pass 2 no two newlines are adjacent: every run of two or more
      became the sentinel. */
  lemma {:induction false} MarkLeavesSingleBreaks(s: string)
    ensures !Contains(MarkParagraphs(s), "\n\n")
    decreases |s|
  {
    if |s| > 0 {
      if s[0] == '\n' {
        var k := RunLength(s, '\n');
        if k >= 2 {
          MarkLeavesSingleBreaks(s[k..]);
          ContainsAfter(Marker, MarkParagraphs(s[k..]), "\n\n");
        } else {
          MarkLeavesSingleBreaks(s[1..]);
          LoneBreakStep(s);
        }
      } else {
        MarkLeavesSingleBreaks(s[1..]);
        ContainsAfter([s[0]], MarkParagraphs(s[1..]), "\n\n");
      }
    }
  }

  /** A lone newline kept by pass 2 is followed by something else. */
  lemma LoneBreakStep(s: string)
    requires |s| > 0 && s[0] == '\n' && RunLength(s, '\n') < 2
    requires !Contains(MarkParagraphs(s[1..]), "\n\n")
    ensures !Contains(MarkParagraphs(s), "\n\n")
  {
    var rest := MarkParagraphs(s[1..]);
    assert MarkParagraphs(s) == "\n" + rest;
    assert ("\n" + rest)[1..] == rest;
    if |s| > 1 {
      assert s[1] != '\n';
      assert rest[0] != '\n';
    }
  }

  /** Undoing passes 2-3: a block free of '<', ' ' and newlines in their
      output was already in their input. */
  lemma {:induction false} JoinMarkStartsWith(x: string, w: string)
    requires '<' !in w && ' ' !in w && '\n' !in w
    requires StartsWith(JoinLines(MarkParagraphs(x)), w)
    ensures StartsWith(x, w)
    decreases |x|
  {
    if |w| > 0 {
      if x[0] == '\n' {
        assert false;
      } else {
        JoinLinesConcat([x[0]], MarkParagraphs(x[1..]));
        assert JoinLines(MarkParagraphs(x)) == [x[0]] + JoinLines(MarkParagraphs(x[1..]));
        JoinMarkStartsWith(x[1..], w[1..]);
      }
    }
  }

  /** Passes 2-4 applied to `x`, as one function. */
  function Passes(x: string): string {
    RestoreParagraphs(JoinLines(MarkParagraphs(x)))
  }

  /** Pass 2 on a leading run of `k >= 2` newlines. */
  lemma MarkOnRun(x: string, k: nat)
    requires 2 <= k == RunLength(x, '\n')
    ensures MarkParagraphs(x) == Marker + MarkParagraphs(x[k..])
  {
  }

  /** Pass 2 on a lone leading newline. */
  lemma MarkOnLone(x: string)
    requires |x| > 0 && x[0] == '\n' && RunLength(x, '\n') == 1
    ensures MarkParagraphs(x) == "\n" + MarkParagraphs(x[1..])
  {
  }

  /** `Passes` on a leading run of two or more newlines. */
  lemma PassesOnRun(x: string, k: nat)
    requires 2 <= k == RunLength(x, '\n')
    ensures Passes(x) == "\n\n" + Passes(x[k..])
  {
    var m := MarkParagraphs(x[k..]);
    calc {
      Passes(x);
      { MarkOnRun(x, k); }
      RestoreParagraphs(JoinLines(Marker + m));
      { JoinLinesConcat(Marker, m); assert JoinLines(Marker) == Marker; }
      RestoreParagraphs(Marker + JoinLines(m));
      { RestoreMarker(JoinLines(m)); }
      "\n\n" + Passes(x[k..]);
    }
  }

  /** `Passes` on a lone leading newline. */
  lemma PassesOnLone(x: string)
    requires |x| > 0 && x[0] == '\n' && RunLength(x, '\n') == 1
    ensures Passes(x) == " " + Passes(x[1..])
  {
    var m := MarkParagraphs(x[1..]);
    calc {
      Passes(x);
      { MarkOnLone(x); }
      RestoreParagraphs(JoinLines("\n" + m));
      { JoinLinesConcat("\n", m); assert JoinLines("\n") == " "; }
      RestoreParagraphs(" " + JoinLines(m));
      { RestoreCons(' ', JoinLines(m)); }
      " " + Passes(x[1..]);
    }
  }

  /** `Passes` on a leading newline run of length `k`. */
  lemma PassesOnBreak(x: string)
    requires |x| > 0 && x[0] == '\n'
    ensures var k := RunLength(x, '\n');
            Passes(x) == (if k >= 2 then "\n\n" else " ") + Passes(x[k..])
  {
    var k := RunLength(x, '\n');
    if k >= 2 {
      PassesOnRun(x, k);
    } else {
      PassesOnLone(x);
    }
  }

  /** `Passes` on a literal leading sentinel. */
  lemma PassesOnMarker(x: string)
    requires StartsWith(x, Marker)
    ensures Passes(x) == "\n\n" + Passes(x[|Marker|..])
  {
    StartsWithSplit(x, Marker);
    MarkPlainPrefix(Marker, x[|Marker|..]);
    JoinLinesConcat(Marker, MarkParagraphs(x[|Marker|..]));
    assert JoinLines(Marker) == Marker;
    RestoreMarker(JoinLines(MarkParagraphs(x[|Marker|..])));
  }

  /** `Passes` on any other leading character. */
  lemma PassesOnChar(x: string)
    requires |x| > 0 && x[0] != '\n' && !StartsWith(x, Marker)
    ensures Passes(x) == [x[0]] + Passes(x[1..])
  {
    var z := JoinLines(MarkParagraphs(x[1..]));
    JoinLinesConcat([x[0]], MarkParagraphs(x[1..]));
    assert JoinLines(MarkParagraphs(x)) == [x[0]] + z;
    if StartsWith([x[0]] + z, Marker) {
      assert StartsWith(z, Marker[1..]);
      JoinMarkStartsWith(x[1..], Marker[1..]);
      assert false;
    }
    assert ([x[0]] + z)[1..] == z;
  }

  /** On text without the sentinel, passes 2-4 are `ReflowLines`. */
  lemma {:induction false} PassesAreReflow(x: string)
    requires !Contains(x, Marker)
    ensures Passes(x) == ReflowLines(x)
    decreases |x|
  {
    if |x| > 0 {
      if x[0] == '\n' {
        var k := RunLength(x, '\n');
        if Contains(x[k..], Marker) { ContainsSuffix(x, k, Marker); }
        PassesOnBreak(x);
        PassesAreReflow(x[k..]);
      } else {
        PassesOnChar(x);
        PassesAreReflow(x[1..]);
      }
    }
  }

  /** Passes 2-4 together only rewrite whitespace, except that a literal
      sentinel in their input is expanded like a marked break. */
  lemma {:induction false} PassesKeepVisible(x: string)
    ensures Visible(Passes(x)) == Visible(RestoreParagraphs(x))
    decreases |x|
  {
    if |x| > 0 {
      if x[0] == '\n' {
        var k := RunLength(x, '\n');
        assert x == x[..k] + x[k..];
        RestorePlainPrefix(x[..k], x[k..]);
        VisibleConcat(x[..k], RestoreParagraphs(x[k..]));
        VisibleOfSpaces(x[..k]);
        PassesOnBreak(x);
        PassesKeepVisible(x[k..]);
        VisibleConcat(if k >= 2 then "\n\n" else " ", Passes(x[k..]));
        VisibleOfSpaces(if k >= 2 then "\n\n" else " ");
      } else if StartsWith(x, Marker) {
        PassesOnMarker(x);
        RestoreMarker(x[|Marker|..]);
        StartsWithSplit(x, Marker);
        PassesKeepVisible(x[|Marker|..]);
        VisibleConcat("\n\n", Passes(x[|Marker|..]));
        VisibleConcat("\n\n", RestoreParagraphs(x[|Marker|..]));
        VisibleOfSpaces("\n\n");
      } else {
        PassesOnChar(x);
        PassesKeepVisible(x[1..]);
        assert RestoreParagraphs(x) == [x[0]] + RestoreParagraphs(x[1..]);
        VisibleCons(x[0], Passes(x[1..]));
        VisibleCons(x[0], RestoreParagraphs(x[1..]));
      }
    }
  }

  /** No newline stands alone. */
  ghost predicate NoLoneNewline(s: string) {
    forall i :: 0 <= i < |s| && s[i] == '\n' ==>
      (i > 0 && s[i - 1] == '\n') || (i + 1 < |s| && s[i + 1] == '\n')
  }

  /** No newline of a string with paired newlines stands alone. */
  lemma {:induction false} PairedNewlinesHaveNeighbours(s: string)
    requires PairedNewlines(s)
    ensures NoLoneNewline(s)
    decreases |s|
  {
    if |s| > 0 {
      if s[0] == '\n' {
        var t := s[2..];
        PairedNewlinesHaveNeighbours(t);
        forall i | 2 <= i < |s| && s[i] == '\n'
          ensures s[i - 1] == '\n' || (i + 1 < |s| && s[i + 1] == '\n')
        {
          assert 0 <= i - 2 < |t| && t[i - 2] == '\n';
          assert (i - 2 > 0 && t[i - 3] == '\n') || (i - 1 < |t| && t[i - 1] == '\n');
          assert s[1] == '\n';
          if i > 2 {
            assert t[i - 3] == s[i - 1];
          }
          if i + 1 < |s| {
            assert t[i - 1] == s[i + 1];
          }
        }
      } else {
        var t := s[1..];
        PairedNewlinesHaveNeighbours(t);
        forall i | 1 <= i < |s| && s[i] == '\n'
          ensures s[i - 1] == '\n' || (i + 1 < |s| && s[i + 1] == '\n')
        {
          assert 0 <= i - 1 < |t| && t[i - 1] == '\n';
          assert (i - 1 > 0 && t[i - 2] == '\n') || (i < |t| && t[i] == '\n');
          if i > 1 {
            assert t[i - 2] == s[i - 1];
          }
          if i + 1 < |s| {
            assert t[i] == s[i + 1];
          }
        }
      }
    }
  }

  // =====================================================================
  // The reference ReflowLines
  // =====================================================================

  /** A blank line followed by text that does not start with a newline
      adds no run of three newlines. */
  lemma NoTripleAfterBreak(rest: string)
    requires !Contains(rest, "\n\n\n") && (rest == [] || rest[0] != '\n')
    ensures !Contains("\n\n" + rest, "\n\n\n")
  {
    var a := "\n\n" + rest;
    var b := "\n" + rest;
    assert !StartsWith(a, "\n\n\n") by {
      if |a| >= 3 { assert a[..3][2] == rest[0]; }
    }
    assert !StartsWith(b, "\n\n\n") by {
      if |b| >= 3 { assert b[..3][1] == rest[0]; }
    }
    assert a[1..] == b && b[1..] == rest;
  }

  lemma {:induction false} ReflowNoTripleBreak(s: string)
    ensures !Contains(ReflowLines(s), "\n\n\n")
    decreases |s|
  {
    if |s| > 0 {
      if s[0] == '\n' {
        var k := RunLength(s, '\n');
        if k >= 2 {
          ReflowNoTripleBreak(s[k..]);
          NoTripleAfterBreak(ReflowLines(s[k..]));
        } else {
          ReflowNoTripleBreak(s[1..]);
          ContainsAfter(" ", ReflowLines(s[1..]), "\n\n\n");
        }
      } else {
        ReflowNoTripleBreak(s[1..]);
        ContainsAfter([s[0]], ReflowLines(s[1..]), "\n\n\n");
      }
    }
  }

  lemma {:induction false} ReflowStartsWith(x: string, w: string)
    requires ' ' !in w && '\n' !in w && StartsWith(ReflowLines(x), w)
    ensures StartsWith(x, w)
    decreases |x|
  {
    if |w| > 0 {
      if x[0] == '\n' {
        assert false;
      } else {
        assert ReflowLines(x) == [x[0]] + ReflowLines(x[1..]);
        ReflowStartsWith(x[1..], w[1..]);
      }
    }
  }

  /** Undoing `ReflowLines`: a block free of spaces and newlines in its
      output was already in its input. */
  lemma {:induction false} ReflowContains(x: string, w: string)
    requires ' ' !in w && '\n' !in w && Contains(ReflowLines(x), w)
    ensures Contains(x, w)
    decreases |x|
  {
    if StartsWith(ReflowLines(x), w) {
      ReflowStartsWith(x, w);
    } else if |x| > 0 {
      if x[0] == '\n' {
        var k := RunLength(x, '\n');
        if k >= 2 {
          ContainsAfter("\n\n", ReflowLines(x[k..]), w);
        } else {
          ContainsAfter(" ", ReflowLines(x[1..]), w);
        }
        ReflowContains(x[k..], w);
        ContainsSuffix(x, k, w);
      } else {
        assert ReflowLines(x)[1..] == ReflowLines(x[1..]);
        ReflowContains(x[1..], w);
      }
    }
  }

  /** Text whose newline runs are all of length two is a fixed point. */
  lemma {:induction false} ReflowFixesPairs(t: string)
    requires PairedNewlines(t) && !Contains(t, "\n\n\n")
    ensures ReflowLines(t) == t
    decreases |t|
  {
    if |t| > 0 {
      if t[0] == '\n' {
        assert !StartsWith(t, "\n\n\n");
        assert RunLength(t, '\n') == 2;
        ReflowFixesPairs(t[2..]);
        assert t == "\n\n" + t[2..];
      } else {
        ReflowFixesPairs(t[1..]);
        assert t == [t[0]] + t[1..];
      }
    }
  }

  // =====================================================================
  // Pass 1 seen through pass 4
  // =====================================================================

  /** A leading sentinel passes through pass 1b and then contributes
      nothing visible to pass 4, on either side. */
  lemma CrMarkerStep(y: string)
    requires StartsWith(y, Marker)
    ensures Visible(RestoreParagraphs(ReplaceCr(y))) == Visible(RestoreParagraphs(ReplaceCr(y[|Marker|..])))
    ensures Visible(RestoreParagraphs(y)) == Visible(RestoreParagraphs(y[|Marker|..]))
  {
    var z := y[|Marker|..];
    StartsWithSplit(y, Marker);
    ReplaceCrConcat(Marker, z);
    assert ReplaceCr(Marker) == Marker;
    RestoreMarker(ReplaceCr(z));
    RestoreMarker(z);
    BlankLineVisible(RestoreParagraphs(ReplaceCr(z)));
    BlankLineVisible(RestoreParagraphs(z));
  }

  /** Pass 1b creates no sentinel at the front. */
  lemma NoMarkerAfterCr(y: string)
    requires !StartsWith(y, Marker)
    ensures !StartsWith(ReplaceCr(y), Marker)
  {
    MarkerHasNoSpace();
    if StartsWith(ReplaceCr(y), Marker) {
      StartsWithThroughReplace(y, ReplaceCr(y), '\n', Marker);
    }
  }

  /** Pass 1b maps the first character to one that `Visible` treats the
      same way, and the rest to the rest. */
  lemma ReplaceCrHead(y: string)
    requires |y| > 0
    ensures ReplaceCr(y)[1..] == ReplaceCr(y[1..])
    ensures Shown(ReplaceCr(y)[0]) == Shown(y[0])
  {
    var x := ReplaceCr(y);
    assert x == [if y[0] == '\r' then '\n' else y[0]] + ReplaceCr(y[1..]);
    if y[0] == '\r' {
      assert x[0] == '\n';
    }
  }

  /** Pass 4 keeps a leading character that does not start a sentinel. */
  lemma RestoreOnChar(x: string)
    requires |x| > 0 && !StartsWith(x, Marker)
    ensures Visible(RestoreParagraphs(x)) == Shown(x[0]) + Visible(RestoreParagraphs(x[1..]))
  {
    assert RestoreParagraphs(x) == [x[0]] + RestoreParagraphs(x[1..]);
    VisibleCons(x[0], RestoreParagraphs(x[1..]));
  }

  /** Any other leading character goes through passes 1b and 4 as itself,
      or as whitespace if it was whitespace. */
  lemma CrCharStep(y: string)
    requires |y| > 0 && !StartsWith(y, Marker)
    ensures Visible(RestoreParagraphs(ReplaceCr(y))) ==
            Shown(y[0]) + Visible(RestoreParagraphs(ReplaceCr(y[1..])))
  {
    var x := ReplaceCr(y);
    NoMarkerAfterCr(y);
    ReplaceCrHead(y);
    RestoreOnChar(x);
  }

  /** Pass 1b does not change what pass 4 makes visible. */
  lemma {:induction false} RestoreAfterCrVisible(y: string)
    ensures Visible(RestoreParagraphs(ReplaceCr(y))) == Visible(RestoreParagraphs(y))
    decreases |y|
  {
    if StartsWith(y, Marker) {
      CrMarkerStep(y);
      RestoreAfterCrVisible(y[|Marker|..]);
    } else if |y| > 0 {
      CrCharStep(y);
      RestoreOnChar(y);
      RestoreAfterCrVisible(y[1..]);
    }
  }

  /** Pass 1a creates no sentinel at the front. */
  lemma NoMarkerAfterCrLf(s: string)
    requires !StartsWith(s, Marker)
    ensures !StartsWith(ReplaceCrLf(s), Marker)
  {
    MarkerHasNoSpace();
    if StartsWith(ReplaceCrLf(s), Marker) {
      ReplaceCrLfStartsWith(s, Marker);
    }
  }

  /** Whitespace without '<' in front of pass 4 adds nothing visible. */
  lemma RestoreSpacesVisible(w: string, z: string)
    requires '<' !in w
    requires forall i :: 0 <= i < |w| ==> IsSpace(w[i])
    ensures Visible(RestoreParagraphs(w + z)) == Visible(RestoreParagraphs(z))
  {
    RestorePlainPrefix(w, z);
    VisibleAfterSpaces(w, RestoreParagraphs(z));
  }

  /** Pass 1a turns a leading CR-LF into one LF. */
  lemma ReplaceCrLfOnCrLf(s: string)
    requires IsCrLf(s)
    ensures ReplaceCrLf(s) == "\n" + ReplaceCrLf(s[2..])
  {
  }

  /** What a leading CR-LF contributes on the translated side of
      `RestoreAfterCrLfVisible`: nothing. */
  lemma CrLfStepTranslated(s: string)
    requires IsCrLf(s)
    ensures Visible(RestoreParagraphs(ReplaceCrLf(s))) == Visible(RestoreParagraphs(ReplaceCrLf(s[2..])))
  {
    ReplaceCrLfOnCrLf(s);
    RestoreSpacesVisible("\n", ReplaceCrLf(s[2..]));
  }

  /** What a leading CR-LF contributes on the untranslated side of
      `RestoreAfterCrLfVisible`: nothing. */
  lemma CrLfStepRaw(s: string)
    requires IsCrLf(s)
    ensures Visible(RestoreParagraphs(s)) == Visible(RestoreParagraphs(s[2..]))
  {
    CrLfSplit(s);
    RestoreSpacesVisible("\r\n", s[2..]);
  }

  /** What a leading sentinel contributes on the translated side of
      `RestoreAfterCrLfVisible`: nothing visible. */
  lemma MarkerStepTranslated(s: string)
    requires StartsWith(s, Marker)
    ensures Visible(RestoreParagraphs(ReplaceCrLf(s))) == Visible(RestoreParagraphs(ReplaceCrLf(s[|Marker|..])))
  {
    var z := s[|Marker|..];
    StartsWithSplit(s, Marker);
    ReplaceCrLfPlainPrefix(Marker, z);
    RestoreMarker(ReplaceCrLf(z));
    BlankLineVisible(RestoreParagraphs(ReplaceCrLf(z)));
  }

  /** What a leading sentinel contributes on the untranslated side of
      `RestoreAfterCrLfVisible`: nothing visible. */
  lemma MarkerStepRaw(s: string)
    requires StartsWith(s, Marker)
    ensures Visible(RestoreParagraphs(s)) == Visible(RestoreParagraphs(s[|Marker|..]))
  {
    var z := s[|Marker|..];
    StartsWithSplit(s, Marker);
    RestoreMarker(z);
    BlankLineVisible(RestoreParagraphs(z));
  }

  /** What any other leading character contributes on either side of
      `RestoreAfterCrLfVisible`: itself, unless it is whitespace. */
  lemma CharStepVisible(s: string)
    requires |s| > 0 && !IsCrLf(s) && !StartsWith(s, Marker)
    ensures Visible(RestoreParagraphs(ReplaceCrLf(s))) ==
            Shown(s[0]) + Visible(RestoreParagraphs(ReplaceCrLf(s[1..])))
    ensures Visible(RestoreParagraphs(s)) ==
            Shown(s[0]) + Visible(RestoreParagraphs(s[1..]))
  {
    var x := ReplaceCrLf(s);
    assert !StartsWith(x, Marker) by {
      NoMarkerAfterCrLf(s);
    }
    calc {
      Visible(RestoreParagraphs(x));
      { assert x == [s[0]] + ReplaceCrLf(s[1..]); assert x[1..] == ReplaceCrLf(s[1..]); }
      Visible([s[0]] + RestoreParagraphs(ReplaceCrLf(s[1..])));
      { VisibleCons(s[0], RestoreParagraphs(ReplaceCrLf(s[1..]))); }
      Shown(s[0]) + Visible(RestoreParagraphs(ReplaceCrLf(s[1..])));
    }
    VisibleCons(s[0], RestoreParagraphs(s[1..]));
  }

  /** Pass 1a does not change what pass 4 makes visible. */
  lemma {:induction false} RestoreAfterCrLfVisible(s: string)
    ensures Visible(RestoreParagraphs(ReplaceCrLf(s))) == Visible(RestoreParagraphs(s))
    decreases |s|
  {
    if IsCrLf(s) {
      CrLfStepTranslated(s);
      CrLfStepRaw(s);
      RestoreAfterCrLfVisible(s[2..]);
    } else if StartsWith(s, Marker) {
      MarkerStepTranslated(s);
      MarkerStepRaw(s);
      RestoreAfterCrLfVisible(s[|Marker|..]);
    } else if |s| > 0 {
      CharStepVisible(s);
      RestoreAfterCrLfVisible(s[1..]);
    }
  }

  // =====================================================================
  // Pass 5: collapsing spaces
  // =====================================================================

  /** Pass 5 leaves text without a double space unchanged. */
  lemma {:induction false} CollapseWithoutDoubleSpace(s: string)
    requires !Contains(s, "  ")
    ensures CollapseSpaces(s) == s
    decreases |s|
  {
    if |s| > 0 {
      CollapseWithoutDoubleSpace(s[1..]);
      assert s == [s[0]] + s[1..];
    }
  }

  /** `re.sub(r' +', ' ', s)` read run by run: each maximal run of
      U+0020 becomes one space; every other character, tabs and line
      breaks included, is copied. */
  function SpaceRunsCollapsed(s: string): string
    decreases |s|
  {
    if |s| == 0 then []
    else if s[0] == ' ' then
      var k := RunLength(s, ' ');
      " " + SpaceRunsCollapsed(s[k..])
    else [s[0]] + SpaceRunsCollapsed(s[1..])
  }

  /** On text that starts with a run of `k` spaces, pass 5 writes one
      space and goes on after the run. */
  lemma {:induction false} CollapseOnRun(s: string, k: nat)
    requires 1 <= k == RunLength(s, ' ')
    ensures CollapseSpaces(s) == " " + CollapseSpaces(s[k..])
    decreases k
  {
    if k == 1 {
      assert !StartsWith(s, "  ");
    } else {
      assert s[..2] == "  ";
      assert s[1..][k - 1..] == s[k..];
      CollapseOnRun(s[1..], k - 1);
    }
  }

  /** Pass 5 is the run-by-run replacement: only U+0020 is touched, and
      each run of it becomes exactly one space. */
  lemma {:induction false} CollapseIsRunReplacement(s: string)
    ensures CollapseSpaces(s) == SpaceRunsCollapsed(s)
    decreases |s|
  {
    if |s| > 0 {
      if s[0] == ' ' {
        var k := RunLength(s, ' ');
        CollapseOnRun(s, k);
        CollapseIsRunReplacement(s[k..]);
      } else {
        assert !StartsWith(s, "  ");
        CollapseIsRunReplacement(s[1..]);
      }
    }
  }

  /** Pass 5 only deletes spaces. */
  lemma {:induction false} CollapseVisible(s: string)
    ensures Visible(CollapseSpaces(s)) == Visible(s)
    decreases |s|
  {
    if |s| > 0 {
      CollapseVisible(s[1..]);
      VisibleCons(s[0], s[1..]);
      assert s == [s[0]] + s[1..];
      if !StartsWith(s, "  ") {
        VisibleCons(s[0], CollapseSpaces(s[1..]));
      }
    }
  }

  lemma {:induction false} CollapseStartsWith(s: string, w: string)
    requires ' ' !in w && StartsWith(CollapseSpaces(s), w)
    ensures StartsWith(s, w)
    decreases |s|
  {
    if |w| > 0 && !StartsWith(s, "  ") {
      assert CollapseSpaces(s) == [s[0]] + CollapseSpaces(s[1..]);
      CollapseStartsWith(s[1..], w[1..]);
    }
  }

  /** Undoing pass 5: a block without spaces in its output was already in
      its input. */
  lemma {:induction false} CollapseContains(s: string, w: string)
    requires ' ' !in w && Contains(CollapseSpaces(s), w)
    ensures Contains(s, w)
    decreases |s|
  {
    if StartsWith(CollapseSpaces(s), w) {
      CollapseStartsWith(s, w);
    } else if StartsWith(s, "  ") {
      CollapseContains(s[1..], w);
    } else {
      assert CollapseSpaces(s)[1..] == CollapseSpaces(s[1..]);
      CollapseContains(s[1..], w);
    }
  }

  /** Pass 5 keeps newlines paired. */
  lemma {:induction false} CollapsePaired(s: string)
    requires PairedNewlines(s)
    ensures PairedNewlines(CollapseSpaces(s))
    decreases |s|
  {
    if |s| > 0 {
      if StartsWith(s, "  ") {
        CollapsePaired(s[1..]);
      } else if s[0] == '\n' {
        var rest := CollapseSpaces(s[2..]);
        assert !StartsWith(s[1..], "  ");
        assert s[1..][1..] == s[2..];
        assert CollapseSpaces(s[1..]) == [s[1]] + rest;
        assert CollapseSpaces(s) == "\n\n" + rest;
        CollapsePaired(s[2..]);
        assert ("\n\n" + rest)[2..] == rest;
      } else {
        var rest := CollapseSpaces(s[1..]);
        CollapsePaired(s[1..]);
        assert ([s[0]] + rest)[1..] == rest;
      }
    }
  }

  // =====================================================================
  // Pass 6: stripping
  // =====================================================================

  lemma {:induction false} StripLeadingVisible(s: string)
    ensures Visible(StripLeading(s)) == Visible(s)
    decreases |s|
  {
    if |s| > 0 && IsSpace(s[0]) {
      assert s == [s[0]] + s[1..];
      VisibleCons(s[0], s[1..]);
      StripLeadingVisible(s[1..]);
    }
  }

  lemma StripTrailingVisible(s: string)
    ensures Visible(StripTrailing(s)) == Visible(s)
  {
    var b := StripTrailing(s);
    var t := s[|b|..];
    assert s == b + t;
    forall i | 0 <= i < |t|
      ensures IsSpace(t[i])
    {
      assert t[i] == s[|b| + i];
    }
    VisibleConcat(b, t);
    VisibleOfSpaces(t);
  }

  /** Pass 6 only deletes whitespace. */
  lemma StripVisible(s: string)
    ensures Visible(Strip(s)) == Visible(s)
  {
    StripLeadingVisible(s);
    StripTrailingVisible(StripLeading(s));
  }

  /** Pass 6 keeps a contiguous piece of its input. */
  lemma StripContains(s: string, w: string)
    requires Contains(Strip(s), w)
    ensures Contains(s, w)
  {
    var a := StripLeading(s);
    ContainsPrefix(a, |StripTrailing(a)|, w);
    ContainsSuffix(s, |s| - |a|, w);
  }

  /** Cutting a string with paired newlines in front of a character that
      is not a newline keeps them paired. */
  lemma {:induction false} PairedSuffix(s: string, k: nat)
    requires PairedNewlines(s) && k <= |s| && (k == |s| || s[k] != '\n')
    ensures PairedNewlines(s[k..])
    decreases |s|
  {
    if k > 0 {
      var d := if s[0] == '\n' then 2 else 1;
      assert s[d..][k - d..] == s[k..];
      PairedSuffix(s[d..], k - d);
    }
  }

  /** Cutting a string with paired newlines after a character that is not
      a newline keeps them paired. */
  lemma {:induction false} PairedPrefix(s: string, k: nat)
    requires PairedNewlines(s) && k <= |s| && (k == 0 || s[k - 1] != '\n')
    ensures PairedNewlines(s[..k])
    decreases |s|
  {
    if k > 0 {
      var d := if s[0] == '\n' then 2 else 1;
      PairedPrefix(s[d..], k - d);
      assert s[..k][d..] == s[d..][..k - d];
    }
  }

  /** Pass 6 keeps newlines paired. */
  lemma StripPaired(s: string)
    requires PairedNewlines(s)
    ensures PairedNewlines(Strip(s))
  {
    var a := StripLeading(s);
    assert IsSpace('\n');
    PairedSuffix(s, |s| - |a|);
    PairedPrefix(a, |StripTrailing(a)|);
  }
}

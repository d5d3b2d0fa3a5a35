/**
 Small inputs that show how `clean_text` (utils/extract.py, lines 16-23)
 treats a literal `"<PARA>"` in its input: it is read as a paragraph break,
 and right after a real blank line it makes cleaning non-idempotent. The
 inputs are stated for any two visible characters `a` and `b` other than
 `<`, e.g. `"a\n\n<PARA>b"`.
 */
module CleanTextExamples {
  import opened Strings
  import opened Cleaning
  import opened CleaningProofs

  /** A visible character that cannot start a sentinel. */
  predicate Plain(c: char) {
    !IsSpace(c) && c != '<'
  }

  /** A string with no CR whose passes 2-4 give a string without spaces and
      with visible ends is cleaned to that string. */
  lemma OnlyPassesMatter(t: string, p: string)
    requires '\r' !in t && Passes(t) == p && ' ' !in p
    requires p == [] || (!IsSpace(p[0]) && !IsSpace(p[|p| - 1]))
    ensures CleanText(t) == p
  {
    assert ReplaceCr(t) == t;
    ContainsAfter(p, [], "  ");
    assert p + [] == p;
    CollapseWithoutDoubleSpace(p);
  }

  // Passes 2-4 on the pieces of the examples, one step each.

  lemma PassesOfPlain(b: char)
    requires Plain(b)
    ensures Passes([b]) == [b]
  {
    PassesOnChar([b]);
    assert [b][1..] == [];
  }

  lemma PassesAfterPlain(a: char, z: string)
    requires Plain(a)
    ensures Passes([a] + z) == [a] + Passes(z)
  {
    var x := [a] + z;
    PassesOnChar(x);
    assert x[1..] == z;
  }

  lemma PassesOfMarker(b: char)
    requires Plain(b)
    ensures Passes(Marker + [b]) == "\n\n" + [b]
  {
    PassesOnMarker(Marker + [b]);
    assert (Marker + [b])[|Marker|..] == [b];
    PassesOfPlain(b);
  }

  lemma PassesOfBreak(b: char)
    requires Plain(b)
    ensures Passes("\n\n" + [b]) == "\n\n" + [b]
  {
    var y := "\n\n" + [b];
    PassesOnBreak(y);
    assert y[1..] == "\n" + [b] && y[1..][1..] == [b];
    assert y[0] == y[1] == '\n' && y[2] == b != '\n';
    assert RunLength(y, '\n') == 2;
    assert y[2..] == [b];
    PassesOfPlain(b);
  }

  lemma PassesOfDoubleBreak(b: char)
    requires Plain(b)
    ensures Passes("\n\n\n\n" + [b]) == "\n\n" + [b]
  {
    var u := "\n\n\n\n" + [b];
    PassesOnBreak(u);
    assert u[1..] == "\n\n\n" + [b] && u[1..][1..] == "\n\n" + [b];
    assert u[1..][1..][1..] == "\n" + [b] && u[1..][1..][1..][1..] == [b];
    assert u[0] == u[1] == u[2] == u[3] == '\n' && u[4] == b != '\n';
    assert RunLength(u, '\n') == 4;
    assert u[4..] == [b];
    PassesOfPlain(b);
  }

  lemma PassesOfBreakMarker(b: char)
    requires Plain(b)
    ensures Passes("\n\n" + Marker + [b]) == "\n\n\n\n" + [b]
  {
    var y := "\n\n" + Marker + [b];
    PassesOnBreak(y);
    assert y[1..] == "\n" + Marker + [b] && y[1..][1..] == Marker + [b];
    assert y[0] == y[1] == '\n' && y[2] == '<';
    assert RunLength(y, '\n') == 2;
    assert y[2..] == Marker + [b];
    PassesOfMarker(b);
  }

  /** Between two plain characters, text without CR whose passes 2-4 give
      text without spaces is cleaned to what those passes give. */
  lemma CleanBetweenPlain(a: char, u: string, v: string, b: char)
    requires Plain(a) && Plain(b) && '\r' !in u && ' ' !in v
    requires Passes(u + [b]) == v + [b]
    ensures CleanText([a] + u + [b]) == [a] + v + [b]
  {
    var t := [a] + (u + [b]);
    var p := [a] + (v + [b]);
    PassesAfterPlain(a, u + [b]);
    assert t == [a] + u + [b];
    assert p == [a] + v + [b];
    assert p[0] == a && p[|p| - 1] == b;
    OnlyPassesMatter(t, p);
  }

  /** `a` + blank line + `b` is already clean. */
  lemma BlankLineIsClean(a: char, b: char)
    requires Plain(a) && Plain(b)
    ensures CleanText([a] + "\n\n" + [b]) == [a] + "\n\n" + [b]
  {
    PassesOfBreak(b);
    CleanBetweenPlain(a, "\n\n", "\n\n", b);
  }

  /** A literal sentinel in the input is read as a paragraph break. */
  lemma LiteralMarkerIsABreak(a: char, b: char)
    requires Plain(a) && Plain(b)
    ensures CleanText([a] + Marker + [b]) == [a] + "\n\n" + [b]
  {
    PassesOfMarker(b);
    MarkerHasNoSpace();
    CleanBetweenPlain(a, Marker, "\n\n", b);
  }

  /** Right after a real blank line, a literal sentinel yields a double
      blank line. */
  lemma MarkerAfterBreakDoubles(a: char, b: char)
    requires Plain(a) && Plain(b)
    ensures CleanText([a] + "\n\n" + Marker + [b]) == [a] + "\n\n\n\n" + [b]
  {
    var u := "\n\n" + Marker;
    PassesOfBreakMarker(b);
    MarkerHasNoSpace();
    assert '\r' !in u;
    CleanBetweenPlain(a, u, "\n\n\n\n", b);
    assert [a] + u == [a] + "\n\n" + Marker;
  }

  /** A double blank line is cleaned to a single one. */
  lemma DoubleBreakHalves(a: char, b: char)
    requires Plain(a) && Plain(b)
    ensures CleanText([a] + "\n\n\n\n" + [b]) == [a] + "\n\n" + [b]
  {
    PassesOfDoubleBreak(b);
    CleanBetweenPlain(a, "\n\n\n\n", "\n\n", b);
  }

  /** So cleaning is not idempotent once the input holds a literal
      sentinel: cleaning `"a\n\n<PARA>b"` a second time changes it again. */
  lemma MarkerBreaksIdempotence(a: char, b: char)
    requires Plain(a) && Plain(b)
    ensures CleanText(CleanText([a] + "\n\n" + Marker + [b])) != CleanText([a] + "\n\n" + Marker + [b])
  {
    MarkerAfterBreakDoubles(a, b);
    DoubleBreakHalves(a, b);
    assert ([a] + "\n\n\n\n" + [b])[3] == '\n';
    assert |[a] + "\n\n" + [b]| == 4;
  }
}

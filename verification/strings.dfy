/**
 Character classes and occurrence predicates over `string` (a `seq<char>`)
 shared by the model of `clean_text` and of the file-type dispatch.
 */
module Strings {

  /** Python's `str.isspace()`, which is what `str.strip()` with no
      argument removes: the C0 separators and controls 0x09-0x0D and
      0x1C-0x1F, the space, NEL, NO-BREAK SPACE, the Unicode space
      separators, and the line and paragraph separators U+2028 and
      U+2029. */
  predicate IsSpace(c: char) {
    var n := c as int;
    || 0x09 <= n <= 0x0D
    || 0x1C <= n <= 0x20
    || n == 0x85 || n == 0xA0 || n == 0x1680
    || 0x2000 <= n <= 0x200A
    || n == 0x2028 || n == 0x2029 || n == 0x202F || n == 0x205F || n == 0x3000
  }

  /** `s` begins with `w`. */
  predicate StartsWith(s: string, w: string) {
    |w| <= |s| && s[..|w|] == w
  }

  /** `w` occurs in `s` as a contiguous block. */
  predicate Contains(s: string, w: string)
    decreases |s|
  {
    StartsWith(s, w) || (|s| > 0 && Contains(s[1..], w))
  }

  /** What `Visible` keeps of a single character. */
  function Shown(c: char): string {
    if IsSpace(c) then [] else [c]
  }

  /** The characters of `s` that are not whitespace, in order. */
  function Visible(s: string): (r: string)
    ensures |r| <= |s|
    decreases |s|
  {
    if |s| == 0 then []
    else if IsSpace(s[0]) then Visible(s[1..])
    else [s[0]] + Visible(s[1..])
  }

  /** Length of the run of `c` that `s` starts with. */
  function RunLength(s: string, c: char): (n: nat)
    ensures n <= |s|
    ensures forall i :: 0 <= i < n ==> s[i] == c
    ensures n < |s| ==> s[n] != c
    decreases |s|
  {
    if |s| > 0 && s[0] == c then 1 + RunLength(s[1..], c) else 0
  }

  /** A string that starts with `w` is `w` followed by the rest. */
  lemma StartsWithSplit(s: string, w: string)
    requires StartsWith(s, w)
    ensures s == w + s[|w|..]
  {
    assert s == s[..|w|] + s[|w|..];
  }

  /** Position of the last `c` in `s`, or -1 (Python's `str.rfind`). */
  function LastIndex(s: string, c: char): (i: int)
    ensures -1 <= i < |s|
    ensures 0 <= i ==> s[i] == c
    ensures forall j :: i < j < |s| ==> s[j] != c
    decreases |s|
  {
    if |s| == 0 then -1
    else if s[|s| - 1] == c then |s| - 1
    else LastIndex(s[..|s| - 1], c)
  }

  /** `w` sits in `s` at index `i`. */
  predicate OccursAt(s: string, w: string, i: int) {
    0 <= i && i + |w| <= |s| && s[i..i + |w|] == w
  }

  /** `Contains` means what it says: `w` sits at some index of `s`. */
  lemma {:induction false} ContainsAt(s: string, w: string)
    ensures Contains(s, w) <==> exists i :: OccursAt(s, w, i)
    decreases |s|
  {
    if Contains(s, w) {
      if !StartsWith(s, w) {
        ContainsAt(s[1..], w);
        var i :| OccursAt(s[1..], w, i);
        assert s[i + 1..i + 1 + |w|] == s[1..][i..i + |w|];
        assert OccursAt(s, w, i + 1);
      } else {
        assert s[0..0 + |w|] == w;
        assert OccursAt(s, w, 0);
      }
    }
    if exists i :: OccursAt(s, w, i) {
      var i :| OccursAt(s, w, i);
      if i > 0 {
        assert s[1..][i - 1..i - 1 + |w|] == s[i..i + |w|];
        assert OccursAt(s[1..], w, i - 1);
        ContainsAt(s[1..], w);
      } else {
        assert s[..|w|] == s[0..0 + |w|];
      }
    }
  }

  /** An occurrence in a suffix is an occurrence in the whole. */
  lemma {:induction false} ContainsSuffix(s: string, k: nat, w: string)
    requires k <= |s| && Contains(s[k..], w)
    ensures Contains(s, w)
    decreases k
  {
    if k > 0 {
      assert s[1..][k - 1..] == s[k..];
      ContainsSuffix(s[1..], k - 1, w);
    }
  }

  /** An occurrence in a prefix is an occurrence in the whole. */
  lemma {:induction false} ContainsPrefix(s: string, k: nat, w: string)
    requires k <= |s| && Contains(s[..k], w)
    ensures Contains(s, w)
    decreases |s|
  {
    if StartsWith(s[..k], w) {
      assert s[..|w|] == s[..k][..|w|];
    } else {
      assert s[..k][1..] == s[1..][..k - 1];
      ContainsPrefix(s[1..], k - 1, w);
    }
  }

  /** If the first character of `w` does not occur in `a`, then no
      occurrence of `w` in `a + b` can start inside `a`. */
  lemma {:induction false} ContainsAfter(a: string, b: string, w: string)
    requires |w| > 0 && w[0] !in a
    ensures Contains(a + b, w) <==> Contains(b, w)
    decreases |a|
  {
    if |a| == 0 {
      assert a + b == b;
    } else {
      assert (a + b)[0] == a[0];
      assert !StartsWith(a + b, w);
      assert (a + b)[1..] == a[1..] + b;
      ContainsAfter(a[1..], b, w);
    }
  }

  /** Deleting whitespace distributes over concatenation. */
  lemma {:induction false} VisibleConcat(a: string, b: string)
    ensures Visible(a + b) == Visible(a) + Visible(b)
    decreases |a|
  {
    if |a| == 0 {
      assert a + b == b;
    } else {
      assert (a + b)[1..] == a[1..] + b;
      VisibleConcat(a[1..], b);
    }
  }

  /** A string of whitespace only has no visible text. */
  lemma {:induction false} VisibleOfSpaces(s: string)
    requires forall i :: 0 <= i < |s| ==> IsSpace(s[i])
    ensures Visible(s) == []
    decreases |s|
  {
    if |s| > 0 {
      VisibleOfSpaces(s[1..]);
    }
  }

  /** Occurrences survive undoing a pass that replaces some characters by
      `c`, as long as `w` does not contain `c`. */
  lemma ContainsThroughReplace(s: string, r: string, c: char, w: string)
    requires |r| == |s| && c !in w
    requires forall i :: 0 <= i < |s| ==> r[i] == s[i] || r[i] == c
    requires Contains(r, w)
    ensures Contains(s, w)
  {
    ContainsAt(r, w);
    var i :| OccursAt(r, w, i);
    forall j | 0 <= j < |w|
      ensures s[i + j] == w[j]
    {
      assert r[i..i + |w|][j] == w[j];
    }
    assert s[i..i + |w|] == w;
    assert OccursAt(s, w, i);
    ContainsAt(s, w);
  }

  /** A block whose characters avoid `c` survives undoing a pass that
      replaces some characters by `c`. */
  lemma StartsWithThroughReplace(s: string, r: string, c: char, w: string)
    requires |r| == |s| && c !in w
    requires forall i :: 0 <= i < |s| ==> r[i] == s[i] || r[i] == c
    requires StartsWith(r, w)
    ensures StartsWith(s, w)
  {
    forall j | 0 <= j < |w|
      ensures s[j] == w[j]
    {
      assert r[..|w|][j] == w[j];
    }
    assert s[..|w|] == w;
  }

  /** Whitespace in front of `x` adds no visible text. */
  lemma VisibleAfterSpaces(p: string, x: string)
    requires forall i :: 0 <= i < |p| ==> IsSpace(p[i])
    ensures Visible(p + x) == Visible(x)
  {
    VisibleConcat(p, x);
    VisibleOfSpaces(p);
  }
}

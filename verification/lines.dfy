/**
 * Python's `str.splitlines()` (without `keepends`), the function that cuts the
 * text of the common-password file into entries.
 *
 * Python treats ten characters as line boundaries: "\n", "\r", "\v", "\f",
 * "\x1c", "\x1d", "\x1e", "\x85", "\u2028" and "\u2029", and it treats the pair
 * "\r\n" as ONE boundary. A boundary ends a line; it does not start a new one,
 * so a trailing boundary adds no empty last entry ("a\n" gives ["a"]) while a
 * blank line between two boundaries is kept as "" ("a\n\nb" gives
 * ["a", "", "b"]).
 */
module Lines {

  /** The characters `str.splitlines` breaks on. */
  predicate IsLineBreak(c: char) {
    || c == '\n' || c == '\r'
    || c == '\U{000B}' || c == '\U{000C}'
    || c == '\U{001C}' || c == '\U{001D}' || c == '\U{001E}'
    || c == '\U{0085}' || c == '\U{2028}' || c == '\U{2029}'
  }

  /** s holds no line boundary at all. */
  predicate NoBreak(s: string) {
    forall i :: 0 <= i < |s| ==> !IsLineBreak(s[i])
  }

  /** One whole boundary: the pair "\r\n" or a single break character. */
  predicate IsTerminator(t: string) {
    t == "\r\n" || (|t| == 1 && IsLineBreak(t[0]))
  }

  /**
   * The split is at a line boundary when `pre` is empty or ends with a
   * boundary that `rest` does not extend (a final "\r" followed by "\n" would
   * merge into one "\r\n" boundary).
   */
  predicate AtBoundary(pre: string, rest: string) {
    || pre == []
    || (&& IsLineBreak(pre[|pre| - 1])
        && !(pre[|pre| - 1] == '\r' && |rest| > 0 && rest[0] == '\n'))
  }

  /** Concatenation of sequences is associative. */
  lemma ConcatAssoc<T>(a: seq<T>, b: seq<T>, c: seq<T>)
    ensures a + (b + c) == (a + b) + c
  {
  }

  /** A sequence is the concatenation of its three slices at i and j. */
  lemma SliceSplit<T>(s: seq<T>, i: nat, j: nat)
    requires i <= j <= |s|
    ensures s == s[..i] + s[i..j] + s[j..]
  {
  }

  /** Slicing a concatenation inside its first part slices that part. */
  lemma SliceOfConcat<T>(a: seq<T>, b: seq<T>, i: nat)
    requires i <= |a|
    ensures (a + b)[..i] == a[..i]
    ensures (a + b)[i..] == a[i..] + b
  {
  }

  /** Three singletons concatenated form the three-element display. */
  lemma ThreeElements<T>(x: T, y: T, z: T)
    ensures [x] + ([y] + [z]) == [x, y, z]
  {
  }

  /** Index of the first line-break character of s, or |s| when there is none. */
  function LineEnd(s: string): (k: nat)
    ensures k <= |s|
    ensures NoBreak(s[..k])
    ensures k < |s| ==> IsLineBreak(s[k])
    decreases |s|
  {
    if s == [] || IsLineBreak(s[0]) then 0
    else
      var k' := LineEnd(s[1..]);
      assert s[..k' + 1] == [s[0]] + s[1..][..k'];
      1 + k'
  }

  /** Length of the boundary that starts at index k: 2 for "\r\n", else 1. */
  function BreakWidth(s: string, k: nat): (w: nat)
    requires k < |s| && IsLineBreak(s[k])
    ensures k + w <= |s|
    ensures IsTerminator(s[k .. k + w])
  {
    if s[k] == '\r' && k + 1 < |s| && s[k + 1] == '\n' then 2 else 1
  }

  /**
   * The boundary that ends the first line of s: a whole boundary, or "" when
   * the first line runs to the end of the text.
   */
  function FirstTerminator(s: string): (t: string)
    ensures LineEnd(s) + |t| <= |s|
    ensures t == [] <==> LineEnd(s) == |s|
    ensures t != [] ==> IsTerminator(t)
  {
    var k := LineEnd(s);
    if k == |s| then [] else s[k .. k + BreakWidth(s, k)]
  }

  /** The text after the first line and its boundary; empty when there is no boundary. */
  function AfterFirstLine(s: string): (rest: string)
    requires s != []
    ensures |rest| < |s|
    ensures LineEnd(s) == |s| ==> rest == []
  {
    s[LineEnd(s) + |FirstTerminator(s)|..]
  }

  /**
   * `s.splitlines()`: the lines of s, boundaries removed. No entry holds a
   * boundary, the text yields no entry exactly when it is empty, and every
   * entry uses up at least one character of the text.
   */
  function SplitLines(s: string): (lines: seq<string>)
    ensures forall i :: 0 <= i < |lines| ==> NoBreak(lines[i])
    ensures lines == [] <==> s == []
    ensures |lines| <= |s|
    decreases |s|
  {
    if s == [] then [] else [s[..LineEnd(s)]] + SplitLines(AfterFirstLine(s))
  }

  /**
   * The boundary that ends each entry of SplitLines(s), in the same order:
   * a whole boundary, or "" for a last line the text does not terminate.
   * This is what `s.splitlines(keepends=True)` would append to each entry.
   */
  function Terminators(s: string): (ends: seq<string>)
    decreases |s|
  {
    if s == [] then [] else [FirstTerminator(s)] + Terminators(AfterFirstLine(s))
  }

  /** Each line followed by its own terminator, concatenated. */
  function Interleave(lines: seq<string>, ends: seq<string>): (s: string)
    requires |lines| == |ends|
    decreases |lines|
  {
    if lines == [] then [] else lines[0] + ends[0] + Interleave(lines[1..], ends[1..])
  }

  /** The file layout of a one-entry-per-line list: each entry followed by "\n". */
  function JoinLines(lines: seq<string>): (text: string)
    ensures lines == [] <==> text == []
    ensures lines != [] ==> text[|text| - 1] == '\n'
    decreases |lines|
  {
    if lines == [] then [] else lines[0] + "\n" + JoinLines(lines[1..])
  }

  /** A prefix without boundaries is skipped over by the search for the first one. */
  lemma {:induction false} LineEndSkip(a: string, t: string)
    requires NoBreak(a)
    ensures LineEnd(a + t) == |a| + LineEnd(t)
    decreases |a|
  {
    if a != [] {
      assert (a + t)[0] == a[0];
      assert (a + t)[1..] == a[1..] + t;
      LineEndSkip(a[1..], t);
    } else {
      assert a + t == t;
    }
  }

  /** Text appended after the first boundary does not move it. */
  lemma LineEndPrefix(p: string, t: string)
    requires LineEnd(p) < |p|
    ensures LineEnd(p + t) == LineEnd(p)
  {
    var k := LineEnd(p);
    assert p == p[..k] + p[k..];
    assert p + t == p[..k] + (p[k..] + t);
    LineEndSkip(p[..k], p[k..] + t);
  }

  /** A text ending in a boundary contains a boundary. */
  lemma LineEndOfTerminated(p: string)
    requires p != [] && IsLineBreak(p[|p| - 1])
    ensures LineEnd(p) < |p|
  {
  }

  /** A text is its first line, that line's boundary, and what follows. */
  lemma FirstLineSplit(s: string)
    requires s != []
    ensures s == s[..LineEnd(s)] + FirstTerminator(s) + AfterFirstLine(s)
  {
    var k := LineEnd(s);
    var w := |FirstTerminator(s)|;
    assert FirstTerminator(s) == s[k .. k + w];
    SliceSplit(s, k, k + w);
  }

  /** Text appended at a boundary does not change the width of an earlier boundary. */
  lemma BreakWidthPrefix(pre: string, rest: string, k: nat)
    requires k < |pre| && IsLineBreak(pre[k])
    requires AtBoundary(pre, rest)
    ensures BreakWidth(pre + rest, k) == BreakWidth(pre, k)
  {
    var s := pre + rest;
    assert s[k] == pre[k];
    if k + 1 < |pre| {
      assert s[k + 1] == pre[k + 1];
    } else if |rest| > 0 {
      assert s[k + 1] == rest[0];
    }
  }

  /**
   * Appending at a boundary leaves the first line of `pre`, and its boundary,
   * where they were; what follows that boundary is again split at a boundary.
   */
  lemma AppendFirstLine(pre: string, rest: string)
    requires pre != [] && AtBoundary(pre, rest)
    ensures LineEnd(pre + rest) == LineEnd(pre)
    ensures (pre + rest)[..LineEnd(pre)] == pre[..LineEnd(pre)]
    ensures AfterFirstLine(pre + rest) == AfterFirstLine(pre) + rest
    ensures AtBoundary(AfterFirstLine(pre), rest)
  {
    LineEndOfTerminated(pre);
    var k := LineEnd(pre);
    LineEndPrefix(pre, rest);
    BreakWidthPrefix(pre, rest, k);
    var w := BreakWidth(pre, k);
    assert |FirstTerminator(pre)| == w;
    assert |FirstTerminator(pre + rest)| == w;
    var pre' := AfterFirstLine(pre);
    assert pre' == pre[k + w..];
    SliceOfConcat(pre, rest, k);
    SliceOfConcat(pre, rest, k + w);
    if pre' != [] {
      assert pre'[|pre'| - 1] == pre[|pre| - 1];
    }
  }

  /**
   * Splitting is compositional at a line boundary: the lines of `pre + rest`
   * are the lines of `pre` followed by the lines of `rest`.
   */
  lemma {:induction false} SplitLinesAppend(pre: string, rest: string)
    requires AtBoundary(pre, rest)
    ensures SplitLines(pre + rest) == SplitLines(pre) + SplitLines(rest)
    decreases |pre|
  {
    if pre == [] {
      assert pre + rest == rest;
    } else {
      AppendFirstLine(pre, rest);
      var first := pre[..LineEnd(pre)];
      var after := AfterFirstLine(pre);
      SplitLinesAppend(after, rest);
      assert SplitLines(pre + rest) == [first] + SplitLines(after + rest);
      ConcatAssoc([first], SplitLines(after), SplitLines(rest));
    }
  }

  /** A boundary-free line, ended by a boundary or by the text, is the first entry. */
  lemma FirstLine(line: string, post: string)
    requires NoBreak(line)
    requires post == [] || IsLineBreak(post[0])
    requires line != [] || post != []
    ensures SplitLines(line + post) != []
    ensures SplitLines(line + post)[0] == line
  {
    var s := line + post;
    LineEndSkip(line, post);
    assert LineEnd(s) == |line|;
    assert s[..|line|] == line;
  }

  /**
   * Every line of the text is an entry of its split: a boundary-free `line`
   * that starts the text or follows a boundary, and that ends the text or is
   * followed by a boundary, is in SplitLines. The one exception is the empty
   * "line" after a final boundary, which Python does not produce.
   */
  lemma LineAppears(pre: string, line: string, post: string)
    requires AtBoundary(pre, line + post)
    requires NoBreak(line)
    requires post == [] || IsLineBreak(post[0])
    requires line != [] || post != []
    ensures line in SplitLines(pre + line + post)
  {
    SplitLinesAppend(pre, line + post);
    ConcatAssoc(pre, line, post);
    FirstLine(line, post);
    var before := SplitLines(pre);
    var after := SplitLines(line + post);
    assert (before + after)[|before|] == after[0];
  }

  /** Interleaving a first line and terminator in front. */
  lemma InterleaveCons(line: string, end: string, lines: seq<string>, ends: seq<string>)
    requires |lines| == |ends|
    ensures Interleave([line] + lines, [end] + ends) == line + end + Interleave(lines, ends)
  {
    assert ([line] + lines)[1..] == lines;
    assert ([end] + ends)[1..] == ends;
  }

  /**
   * Each entry of the split has a terminator: a whole boundary, except
   * possibly an empty one after the last entry.
   */
  lemma {:induction false} TerminatorsWellFormed(s: string)
    ensures |Terminators(s)| == |SplitLines(s)|
    ensures forall i :: 0 <= i < |Terminators(s)| - 1 ==> IsTerminator(Terminators(s)[i])
    ensures Terminators(s) != [] ==>
      var last := Terminators(s)[|Terminators(s)| - 1];
      IsTerminator(last) || last == []
    decreases |s|
  {
    if s != [] {
      var t := AfterFirstLine(s);
      TerminatorsWellFormed(t);
      var ends := Terminators(s);
      var tail := Terminators(t);
      assert ends == [FirstTerminator(s)] + tail;
      forall i | 0 <= i < |ends| - 1
        ensures IsTerminator(ends[i])
      {
        if i > 0 {
          assert ends[i] == tail[i - 1];
        }
      }
      if tail != [] {
        assert ends[|ends| - 1] == tail[|tail| - 1];
      }
    }
  }

  /**
   * Keeping the boundaries loses nothing: every entry of the split has a
   * terminator, each a whole boundary except possibly an empty one after the
   * last entry, and the entries, each followed by its terminator, spell out
   * the text again.
   */
  lemma {:induction false} SplitLinesReassemble(s: string)
    ensures |Terminators(s)| == |SplitLines(s)|
    ensures forall i :: 0 <= i < |Terminators(s)| - 1 ==> IsTerminator(Terminators(s)[i])
    ensures Terminators(s) != [] ==>
      var last := Terminators(s)[|Terminators(s)| - 1];
      IsTerminator(last) || last == []
    ensures Interleave(SplitLines(s), Terminators(s)) == s
    decreases |s|
  {
    TerminatorsWellFormed(s);
    if s != [] {
      var t := AfterFirstLine(s);
      SplitLinesReassemble(t);
      InterleaveCons(s[..LineEnd(s)], FirstTerminator(s), SplitLines(t), Terminators(t));
      FirstLineSplit(s);
    }
  }

  /**
   * Splitting undoes the one-entry-per-line layout: entries without
   * boundaries, written one per line, split back into the same entries.
   */
  lemma {:induction false} SplitJoin(lines: seq<string>)
    requires forall i :: 0 <= i < |lines| ==> NoBreak(lines[i])
    ensures SplitLines(JoinLines(lines)) == lines
    decreases |lines|
  {
    if lines != [] {
      var l := lines[0];
      var rest := JoinLines(lines[1..]);
      var s := JoinLines(lines);
      assert s == l + ("\n" + rest);
      LineEndSkip(l, "\n" + rest);
      assert LineEnd(s) == |l|;
      assert s[|l|] == '\n';
      assert BreakWidth(s, |l|) == 1;
      assert s[..|l|] == l;
      assert AfterFirstLine(s) == s[|l| + 1..] == rest;
      SplitJoin(lines[1..]);
    }
  }

  /** A final boundary adds no empty entry: "a\n" splits like "a". */
  lemma TrailingBreakAddsNoEntry(line: string, c: char)
    requires NoBreak(line)
    requires IsLineBreak(c)
    ensures SplitLines(line + [c]) == [line]
    ensures line != [] ==> SplitLines(line) == [line]
  {
    var s := line + [c];
    LineEndSkip(line, [c]);
    assert LineEnd(s) == |line|;
    assert BreakWidth(s, |line|) == 1;
    assert s[..|line|] == line;
    assert AfterFirstLine(s) == s[|line| + 1..] == [];
    if line != [] {
      LineEndSkip(line, []);
      assert line + [] == line;
      assert line[..|line|] == line;
    }
  }

  /** "\r\n" is one boundary: "a\r\n" splits like "a", with no "" after the "\r". */
  lemma TrailingCrLfAddsNoEntry(line: string)
    requires NoBreak(line)
    ensures SplitLines(line + "\r\n") == [line]
  {
    var s := line + "\r\n";
    LineEndSkip(line, "\r\n");
    assert LineEnd(s) == |line|;
    assert s[|line|] == '\r' && s[|line| + 1] == '\n';
    assert BreakWidth(s, |line|) == 2;
    assert s[..|line|] == line;
    assert AfterFirstLine(s) == s[|line| + 2..] == [];
  }

  /** A blank line between two boundaries is kept as the entry "". */
  lemma BlankLineKept(a: string, b: string)
    requires NoBreak(a) && NoBreak(b) && b != []
    ensures SplitLines(a + "\n\n" + b) == [a, "", b]
  {
    var x := a + "\n";
    var y := "\n" + b;
    assert a + "\n\n" + b == x + y;
    TrailingBreakAddsNoEntry(a, '\n');
    assert SplitLines(x) == [a];
    TrailingBreakAddsNoEntry([], '\n');
    assert [] + "\n" == "\n";
    TrailingBreakAddsNoEntry(b, '\n');
    SplitLinesAppend("\n", b);
    assert SplitLines(y) == [""] + [b];
    SplitLinesAppend(x, y);
    assert SplitLines(x + y) == [a] + ([""] + [b]);
    ThreeElements(a, "", b);
  }
}

/**
 * The common-password blocklist: the text of the password-list file, cut into
 * lines and collected into a set, once, before any request is served.
 * Reading the file is not modelled; the model starts from its text.
 */
module Blocklist {
  import opened Lines

  /**
   * `set(file.read().splitlines())`: every entry is one whole line of the
   * file, so no entry holds a line boundary, and only an empty file gives an
   * empty blocklist. Blank lines between entries are kept as "".
   */
  function LoadBlocklist(text: string): (blocklist: set<string>)
    ensures forall w :: w in blocklist ==> NoBreak(w)
    ensures blocklist == {} <==> text == []
  {
    var lines := SplitLines(text);
    var loaded := set w | w in lines;
    assert lines != [] ==> lines[0] in loaded;
    loaded
  }

  /**
   * Every line of the file ends up in the blocklist: a boundary-free line
   * that starts the file or follows a boundary, and ends the file or is
   * followed by a boundary, is a member (except the empty "line" after a
   * final boundary, which splitting does not produce).
   */
  lemma EveryLineLoaded(pre: string, line: string, post: string)
    requires AtBoundary(pre, line + post)
    requires NoBreak(line)
    requires post == [] || IsLineBreak(post[0])
    requires line != [] || post != []
    ensures line in LoadBlocklist(pre + line + post)
  {
    LineAppears(pre, line, post);
  }

  /**
   * A list file written one entry per line loads back as exactly its
   * entries, provided no entry holds a line boundary.
   */
  lemma LoadJoined(entries: seq<string>)
    requires forall i :: 0 <= i < |entries| ==> NoBreak(entries[i])
    ensures forall w :: w in LoadBlocklist(JoinLines(entries)) <==> w in entries
  {
    SplitJoin(entries);
  }

  /** A trailing newline on the last entry adds no "" entry to the blocklist. */
  lemma TrailingNewlineLoadsNoBlank(text: string)
    requires NoBreak(text) && text != []
    ensures LoadBlocklist(text + "\n") == LoadBlocklist(text) == {text}
  {
    TrailingBreakAddsNoEntry(text, '\n');
  }

  /** A blank line between two entries adds the entry "". */
  lemma BlankLineLoadsEmptyEntry(a: string, b: string)
    requires NoBreak(a) && NoBreak(b) && b != []
    ensures "" in LoadBlocklist(a + "\n\n" + b)
  {
    BlankLineKept(a, b);
  }
}

/** One line of a terminal: printable characters overwrite cells, backspace moves left, carriage return moves to
    the first column and line feed starts a blank line (sections 8.3.5, 8.3.15 and 8.3.74 of ECMA-48). */
module Terminal {
  import opened CliHistory

  const BS: char := '\U{8}'

  /** Cells beyond the end of line are blank. */
  datatype Term = Term(line: string, col: nat)

  function Cell(t: Term, k: nat): char {
    if k < |t.line| then t.line[k] else ' '
  }

  function Blanks(n: nat): (s: string)
    ensures |s| == n && forall k :: 0 <= k < n ==> s[k] == ' '
  {
    seq(n, _ => ' ')
  }

  function Put(t: Term, c: char): Term {
    if c == BS then t.(col := if t.col > 0 then t.col - 1 else 0)
    else if c == '\r' then t.(col := 0)
    else if c == '\n' then t.(line := "")
    else if !Printable(c) then t
    else if t.col < |t.line| then Term(t.line[t.col := c], t.col + 1)
    else Term(t.line + Blanks(t.col - |t.line|) + [c], t.col + 1)
  }

  function Feed(t: Term, bytes: string): Term {
    if bytes == "" then t else Put(Feed(t, bytes[..|bytes| - 1]), bytes[|bytes| - 1])
  }

  /** The line shows exactly s, followed by blanks. */
  ghost predicate Shows(t: Term, s: string) {
    forall k: nat :: Cell(t, k) == if k < |s| then s[k] else ' '
  }

  lemma PutText(t: Term, c: char)
    requires Printable(c)
    ensures Put(t, c).col == t.col + 1
    ensures forall k: nat :: Cell(Put(t, c), k) == if k == t.col then c else Cell(t, k)
  {
  }

  /** Printing text overwrites the cells from the cursor on. */
  lemma {:induction false} FeedText(t: Term, p: string)
    requires forall k :: 0 <= k < |p| ==> Printable(p[k])
    ensures Feed(t, p).col == t.col + |p|
    ensures forall k: nat :: Cell(Feed(t, p), k) == if t.col <= k < t.col + |p| then p[k - t.col] else Cell(t, k)
  {
    if p != "" {
      FeedText(t, p[..|p| - 1]);
      PutText(Feed(t, p[..|p| - 1]), p[|p| - 1]);
    }
  }

  lemma {:induction false} FeedConcat(t: Term, a: string, b: string)
    ensures Feed(t, a + b) == Feed(Feed(t, a), b)
  {
    if b == "" {
      assert a + b == a;
    } else {
      assert (a + b)[..|a + b| - 1] == a + b[..|b| - 1];
      FeedConcat(t, a, b[..|b| - 1]);
    }
  }

  /** A fresh prompt: whatever was printed before, the next line shows only what follows. */
  lemma FeedNewLine(t: Term)
    ensures Feed(t, "\r\n") == Term("", 0)
  {
    assert "\r\n"[..1] == "\r" && "\r"[..0] == "";
    assert Feed(t, "\r") == Put(Feed(t, ""), '\r');
  }

  /** The line shows the prompt and the text, and the cursor is where the next character will be inserted. */
  ghost predicate ScreenOk(t: Term, prompt: string, text: string, insert: nat) {
    Shows(t, prompt + text) && t.col == |prompt| + insert
  }

  lemma PromptScreen(t: Term, prompt: string, text: string)
    requires IsLine(prompt) && IsLine(text)
    ensures ScreenOk(Feed(Feed(Feed(t, "\r\n"), prompt), text), prompt, text, |text|)
  {
    FeedNewLine(t);
    var start := Term("", 0);
    FeedText(start, prompt);
    FeedText(Feed(start, prompt), text);
    var end := Feed(Feed(start, prompt), text);
    forall k: nat ensures Cell(end, k) == if k < |prompt + text| then (prompt + text)[k] else ' ' {
      assert Cell(start, k) == ' ';
    }
  }
}

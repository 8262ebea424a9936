/** The serial line editor: a buffer edited in place, and the bytes that keep the terminal showing it. */
module CliEditor {
  import opened CliHistory
  import opened Terminal

  // What the keys do to the edited line

  datatype Key =
    | Char(c: char)
    | Backspace
    | Left
    | Right
    | Up
    | Down
    | Enter(output: string)
    | Tab(output: string, matches: seq<string>)

  /** The line, the insertion point, and the history with its cursor. */
  datatype State = State(text: string, insert: nat, lines: seq<string>, cursor: int)

  function Recall(st: State, cursor: int, line: string): State {
    st.(text := line, insert := |line|, cursor := cursor)
  }

  function Press(st: State, key: Key): State
    requires st.insert <= |st.text| && 0 <= st.cursor <= |st.lines|
  {
    match key
    case Char(c) =>
      if !Printable(c) || |st.text| >= BUFFER_SIZE then st
      else st.(text := st.text[..st.insert] + [c] + st.text[st.insert..], insert := st.insert + 1)
    case Backspace =>
      if st.insert == 0 then st
      else st.(text := st.text[..st.insert - 1] + st.text[st.insert..], insert := st.insert - 1)
    case Left => if st.insert > 0 then st.(insert := st.insert - 1) else st
    case Right => if st.insert < |st.text| then st.(insert := st.insert + 1) else st
    case Up => if st.cursor < |st.lines| then Recall(st, st.cursor + 1, st.lines[st.cursor]) else st
    case Down => if st.cursor > 1 then Recall(st, st.cursor - 1, st.lines[st.cursor - 2]) else st
    case Enter(_) => if st.text == "" then st else State("", 0, Remember(st.lines, st.text), 0)
    case Tab(_, matches) =>
      if st.text == "" || |matches| > 1 then st
      else if |matches| == 1 then st.(text := matches[0], insert := |matches[0]|)
      else st.(insert := |st.text|)
  }

  /** The keys after which screen and line still agree: not Backspace at the start of a non-empty line, and not a
      Tab with several matches while the insertion point is inside the line. Command names fit the buffer. */
  predicate Safe(st: State, key: Key) {
    match key
    case Backspace => st.insert > 0 || st.text == ""
    case Tab(_, matches) =>
      && (forall k :: 0 <= k < |matches| ==> IsLine(matches[k]))
      && (|matches| > 1 ==> st.insert == |st.text|)
    case _ => true
  }

  predicate StateOk(st: State) {
    && IsLine(st.text) && st.insert <= |st.text| && 0 <= st.cursor <= |st.lines|
    && forall k :: 0 <= k < |st.lines| ==> IsLine(st.lines[k])
  }

  predicate SafeRun(st: State, keys: seq<Key>)
    requires StateOk(st)
    decreases |keys|
  {
    keys == [] || (Safe(st, keys[0]) && (PressOk(st, keys[0]); SafeRun(Press(st, keys[0]), keys[1..])))
  }

  function PressAll(st: State, keys: seq<Key>): State
    requires StateOk(st) && SafeRun(st, keys)
    decreases |keys|
  {
    if keys == [] then st else (PressOk(st, keys[0]); PressAll(Press(st, keys[0]), keys[1..]))
  }

  lemma PressOk(st: State, key: Key)
    requires StateOk(st) && Safe(st, key)
    ensures StateOk(Press(st, key))
  {
  }

  // What the emitted bytes do to the screen

  function Backs(n: nat): (s: string)
    ensures |s| == n
  {
    seq(n, _ => BS)
  }

  lemma {:induction false} FeedBacks(t: Term, n: nat)
    requires n <= t.col
    ensures Feed(t, Backs(n)) == t.(col := t.col - n)
  {
    if n > 0 {
      assert Backs(n)[..n - 1] == Backs(n - 1);
      FeedBacks(t, n - 1);
    }
  }

  lemma FeedOne(t: Term, c: char)
    ensures Feed(t, [c]) == Put(t, c)
  {
    assert [c][..0] == "" && Feed(t, "") == t;
  }

  lemma InsertScreen(t: Term, prompt: string, text: string, insert: nat, c: char)
    requires IsLine(prompt) && IsLine(text) && insert <= |text| && Printable(c) && ScreenOk(t, prompt, text, insert)
    ensures ScreenOk(Feed(Feed(t, [c] + text[insert..]), Backs(|text| - insert)), prompt,
                     text[..insert] + [c] + text[insert..], insert + 1)
  {
    var tail := [c] + text[insert..];
    FeedText(t, tail);
    FeedBacks(Feed(t, tail), |text| - insert);
    var text' := text[..insert] + [c] + text[insert..];
    var end := Feed(Feed(t, tail), Backs(|text| - insert));
    forall k: nat ensures Cell(end, k) == if k < |prompt + text'| then (prompt + text')[k] else ' ' {
      assert Cell(end, k) == Cell(Feed(t, tail), k);
      assert Cell(t, k) == if k < |prompt + text| then (prompt + text)[k] else ' ';
    }
  }

  /** One step back, the tail of the line and a blank, and back to the insertion point. */
  function Erased(t: Term, tail: string): Term {
    Feed(Feed(Feed(Feed(t, [BS]), tail), [' ', BS]), Backs(|tail|))
  }

  lemma BackspaceScreen(t: Term, prompt: string, text: string, insert: nat)
    requires IsLine(prompt) && IsLine(text) && 0 < insert <= |text| && ScreenOk(t, prompt, text, insert)
    ensures ScreenOk(Erased(t, text[insert..]), prompt, text[..insert - 1] + text[insert..], insert - 1)
  {
    FeedOne(t, BS);
    var t0 := Feed(t, [BS]);
    FeedText(t0, text[insert..]);
    var t1 := Feed(t0, text[insert..]);
    assert [' ', BS] == [' '] + [BS];
    FeedConcat(t1, [' '], [BS]);
    FeedOne(t1, ' ');
    PutText(t1, ' ');
    FeedOne(Put(t1, ' '), BS);
    var t2 := Feed(t1, [' ', BS]);
    FeedBacks(t2, |text| - insert);
    var text' := text[..insert - 1] + text[insert..];
    var end := Feed(t2, Backs(|text| - insert));
    forall k: nat ensures Cell(end, k) == if k < |prompt + text'| then (prompt + text')[k] else ' ' {
      assert Cell(end, k) == Cell(Put(t1, ' '), k);
      assert Cell(t0, k) == Cell(t, k) == if k < |prompt + text| then (prompt + text)[k] else ' ';
    }
  }

  /** Blanking the line and printing another one after the prompt. */
  lemma RecallScreen(t: Term, prompt: string, text: string, insert: nat, line: string)
    requires IsLine(prompt) && IsLine(text) && IsLine(line) && ScreenOk(t, prompt, text, insert)
    ensures var t1 := Feed(Feed(Feed(t, ['\r']), Blanks(|text| + |prompt|)), ['\r']);
            ScreenOk(Feed(Feed(t1, prompt), line), prompt, line, |line|)
  {
    FeedOne(t, '\r');
    var t0 := Feed(t, ['\r']);
    FeedText(t0, Blanks(|text| + |prompt|));
    var tb := Feed(t0, Blanks(|text| + |prompt|));
    FeedOne(tb, '\r');
    var t1 := Feed(tb, ['\r']);
    forall k: nat ensures Cell(t1, k) == ' ' {
      assert Cell(t0, k) == Cell(t, k) == if k < |prompt + text| then (prompt + text)[k] else ' ';
      assert Cell(t1, k) == Cell(tb, k);
    }
    FeedText(t1, prompt);
    FeedText(Feed(t1, prompt), line);
    var end := Feed(Feed(t1, prompt), line);
    forall k: nat ensures Cell(end, k) == if k < |prompt + line| then (prompt + line)[k] else ' ' {
    }
  }

  /** A Tab with several matches prints the line again but leaves the insertion point: screen and line then agree
      exactly when the insertion point is at the end. */
  lemma TabWithSeveralMatches(t: Term, prompt: string, text: string, insert: nat)
    requires IsLine(prompt) && IsLine(text) && insert <= |text|
    ensures ScreenOk(Feed(Feed(Feed(t, "\r\n"), prompt), text), prompt, text, insert) <==> insert == |text|
  {
    PromptScreen(t, prompt, text);
  }

  /** index and insert after Backspace, in the UINT16 arithmetic of the code. */
  function BackspaceIndices(index: nat, insert: nat): (nat, nat)
    requires index < 65536 && insert < 65536
  {
    if index == 0 then (index, insert) else (Dec16(index), Dec16(insert))
  }

  /** Backspace keeps the insertion point inside the line exactly when it is not at the start of a non-empty
      line; there it wraps around to 65535. */
  lemma BackspaceInBounds(index: nat, insert: nat)
    requires insert <= index <= BUFFER_SIZE
    ensures var (index', insert') := BackspaceIndices(index, insert);
            insert' <= index' <= BUFFER_SIZE <==> insert > 0 || index == 0
  {
  }

  lemma LineWithout(text: string, k: nat)
    requires IsLine(text) && k < |text|
    ensures IsLine(text[..k] + text[k + 1..])
  {
  }

  class Cli {
    const prompt: string
    const buffer: array<char>
    const history: History
    var index: nat
    var insert: nat
    /** What the bytes sent so far have left on the terminal. */
    var term: Term

    ghost predicate Valid()
      reads this, buffer, history, history.data
    {
      && buffer.Length == BUFFER_SIZE + 1
      && insert <= index <= BUFFER_SIZE
      && IsLine(prompt) && IsLine(buffer[..index])
      && history.Valid()
      && ScreenOk(term, prompt, buffer[..index], insert)
    }

    /** The line being edited, with the history. */
    ghost function Model(): State
      requires Valid()
      reads this, buffer, history, history.data
    {
      State(buffer[..index], insert, history.Lines(), history.Cursor())
    }

    constructor (prompt: string, screen: Term)
      requires IsLine(prompt)
      ensures Valid() && Model() == State("", 0, [], 0) && fresh(buffer) && fresh(history) && fresh(history.data)
    {
      this.prompt := prompt;
      buffer := new char[BUFFER_SIZE + 1](_ => '\0');
      history := new History();
      index, insert := 0, 0;
      term := screen;
      new;
      PrintPrompt();
      assert buffer[..0] == "";
      assert Feed(term, "") == term;
      PromptScreen(screen, prompt, "");
    }

    method Output(bytes: string)
      modifies this`term
      ensures term == Feed(old(term), bytes)
    {
      term := Feed(term, bytes);
    }

    method OutputRepeated(c: char, n: nat)
      modifies this`term
      ensures term == Feed(old(term), seq(n, _ => c))
    {
      for i := 0 to n
        invariant term == Feed(old(term), seq(i, _ => c))
      {
        ghost var sofar := seq(i + 1, _ => c);
        assert sofar[..i] == seq(i, _ => c);
        FeedOne(term, c);
        Output([c]);
      }
    }

    method PrintPrompt()
      modifies this`term
      ensures term == Feed(Feed(old(term), "\r\n"), prompt)
    {
      Output("\r\n");
      Output(prompt);
    }

    method InsertChar(data: char)
      requires Valid()
      modifies this, buffer
      ensures Valid() && Model() == Press(old(Model()), Char(data))
    {
      if !(32 <= data as int <= 126) || BUFFER_SIZE - 1 < index {
        return;
      }
      InsertScreen(term, prompt, buffer[..index], insert, data);
      if insert != index {
        InsertInside(data);
      } else {
        ghost var text := buffer[..index];
        buffer[index] := data;
        index := index + 1;
        insert := index;
        assert buffer[..index] == text + [data];
        assert text[|text|..] == "" && [data] + "" == [data] && Backs(0) == "" && text[..|text|] == text;
        assert text + [data] + "" == text + [data];
        Output([data]);
      }
    }

    method InsertInside(data: char)
      requires Valid() && insert < index < BUFFER_SIZE && Printable(data)
      requires var text := buffer[..index];
               ScreenOk(Feed(Feed(term, [data] + text[insert..]), Backs(|text| - insert)), prompt,
                        text[..insert] + [data] + text[insert..], insert + 1)
      modifies this, buffer
      ensures Valid() && Model() == Press(old(Model()), Char(data))
    {
      ghost var text, at := buffer[..index], insert;
      OpenGap(data);
      index := index + 1;
      Output(buffer[insert..index]);
      insert := insert + 1;
      assert Backs(index - insert) == seq(index - insert, _ => BS);
      OutputRepeated(BS, index - insert);
    }

    /** memmove() of the tail by one, and the new character. */
    method OpenGap(data: char)
      requires buffer.Length == BUFFER_SIZE + 1 && insert < index < BUFFER_SIZE
      modifies buffer
      ensures var text := old(buffer[..index]);
              && buffer[..index + 1] == text[..insert] + [data] + text[insert..]
              && buffer[insert..index + 1] == [data] + text[insert..]
    {
      forall k | insert <= k < index {
        buffer[k + 1] := buffer[k];
      }
      buffer[insert] := data;
    }

    /** memmove() of the tail back over the character before the insertion point. */
    method CloseGap()
      requires buffer.Length == BUFFER_SIZE + 1 && 0 < insert <= index <= BUFFER_SIZE
      modifies buffer
      ensures var text := old(buffer[..index]);
              && buffer[..index - 1] == text[..insert - 1] + text[insert..]
              && buffer[insert - 1..index - 1] == text[insert..]
    {
      forall k | insert - 1 <= k < index - 1 {
        buffer[k] := buffer[k + 1];
      }
      buffer[index - 1] := '\0';
    }

    method BackspaceKey()
      requires Valid() && (insert > 0 || index == 0)
      modifies this, buffer
      ensures Valid() && Model() == Press(old(Model()), Backspace)
    {
      if index == 0 {
        return;
      }
      BackspaceScreen(term, prompt, buffer[..index], insert);
      if index > insert {
        EraseInside();
      } else {
        EraseLast();
      }
    }

    method EraseInside()
      requires Valid() && 0 < insert < index
      requires var text := buffer[..index];
               ScreenOk(Erased(term, text[insert..]), prompt, text[..insert - 1] + text[insert..], insert - 1)
      modifies this, buffer
      ensures Valid() && Model() == Press(old(Model()), Backspace)
    {
      ghost var text := buffer[..index];
      ghost var shorter, tail := text[..insert - 1] + text[insert..], text[insert..];
      LineWithout(text, insert - 1);
      CloseGap();
      index := index - 1;
      insert := insert - 1;
      assert buffer[..index] == shorter && buffer[insert..index] == tail;
      RedrawTail();
      assert buffer[..index] == shorter;
    }

    /** Steps back, prints the tail again with a blank after it, and returns to the insertion point. */
    method RedrawTail()
      requires insert <= index <= buffer.Length
      modifies this`term
      ensures term == Erased(old(term), buffer[insert..index])
    {
      Output([BS]);
      Output(buffer[insert..index]);
      Output([' ', BS]);
      OutputRepeated(BS, index - insert);
    }

    method EraseLast()
      requires Valid() && 0 < index == insert
      requires var text := buffer[..index];
               ScreenOk(Erased(term, text[insert..]), prompt, text[..insert - 1] + text[insert..], insert - 1)
      modifies this, buffer
      ensures Valid() && Model() == Press(old(Model()), Backspace)
    {
      ghost var text := buffer[..index];
      index := index - 1;
      insert := insert - 1;
      buffer[insert] := '\0';
      assert text[|text|..] == "" && text[..|text| - 1] + "" == text[..|text| - 1] == buffer[..index];
      ErasureBytes(term, "");
      Output([BS, ' ', BS]);
    }

    /** __cli_up_key() and __cli_down_key() once they have found a line. */
    method Show(line: string)
      requires Valid() && IsLine(line)
      modifies this, buffer
      ensures Valid() && buffer[..index] == line && insert == |line|
      ensures history.Lines() == old(history.Lines()) && history.Cursor() == old(history.Cursor())
    {
      RecallScreen(term, prompt, buffer[..index], insert, line);
      OutputLine(line);
      CopyLine(line);
    }

    /** Blanks the line on the screen and prints another one. */
    method OutputLine(line: string)
      modifies this`term
      ensures var t1 := Feed(Feed(Feed(old(term), ['\r']), Blanks(index + |prompt|)), ['\r']);
              term == Feed(Feed(t1, prompt), line)
    {
      Output(['\r']);
      assert Blanks(index + |prompt|) == seq(index + |prompt|, _ => ' ');
      OutputRepeated(' ', index + |prompt|);
      Output(['\r']);
      Output(prompt);
      Output(line);
    }

    /** strcpy() into the buffer. */
    method CopyLine(line: string)
      requires buffer.Length == BUFFER_SIZE + 1 && IsLine(line)
      modifies this`index, this`insert, buffer
      ensures index == |line| && insert == |line| && buffer[..index] == line
    {
      forall k | 0 <= k < |line| {
        buffer[k] := line[k];
      }
      index := |line|;
      buffer[index] := '\0';
      insert := index;
    }

    method UpKey()
      requires Valid()
      modifies this, buffer, history
      ensures Valid() && Model() == Press(old(Model()), Up)
    {
      var found, line := history.Prev();
      if found {
        Show(line);
      }
    }

    method DownKey()
      requires Valid()
      modifies this, buffer, history
      ensures Valid() && Model() == Press(old(Model()), Down)
    {
      var found, line := history.Next();
      if found {
        Show(line);
      }
    }

    method LeftKey()
      requires Valid()
      modifies this
      ensures Valid() && Model() == Press(old(Model()), Left)
    {
      if insert > 0 {
        FeedOne(term, BS);
        Output([BS]);
        insert := insert - 1;
      }
    }

    method RightKey()
      requires Valid()
      modifies this
      ensures Valid() && Model() == Press(old(Model()), Right)
    {
      if insert < index {
        FeedOne(term, buffer[insert]);
        PutText(term, buffer[insert]);
        Output([buffer[insert]]);
        insert := insert + 1;
      }
    }

    /** The command's own output is arbitrary; the prompt that follows starts a fresh line. */
    method EnterKey(output: string)
      requires Valid()
      modifies this, buffer, history, history.data
      ensures Valid() && Model() == Press(old(Model()), Enter(output))
    {
      if index == 0 {
        PromptScreen(term, prompt, "");
        assert buffer[..0] == "";
        PrintPrompt();
        assert Feed(term, "") == term;
        return;
      }
      buffer[index] := '\0';
      history.Save(buffer[..index]);
      Output(output);
      PromptScreen(term, prompt, "");
      PrintPrompt();
      assert Feed(term, "") == term;
      ClearBuffer();
    }

    /** Ends with memset() over the whole buffer. */
    method ClearBuffer()
      modifies this`index, this`insert, buffer
      ensures index == 0 && insert == 0 && buffer[..0] == ""
    {
      index, insert := 0, 0;
      forall k | 0 <= k < buffer.Length {
        buffer[k] := '\0';
      }
    }

    method TabKey(output: string, matches: seq<string>)
      requires Valid() && Safe(Model(), Tab(output, matches))
      modifies this, buffer
      ensures Valid() && Model() == Press(old(Model()), Tab(output, matches))
    {
      Output(output);
      if index == 0 {
        PromptScreen(term, prompt, "");
        assert buffer[..0] == "";
        PrintPrompt();
        assert Feed(term, "") == term;
        return;
      }
      if |matches| == 1 {
        CopyLine(matches[0]);
      } else if |matches| == 0 {
        insert := index;
      }
      PromptScreen(term, prompt, buffer[..index]);
      PrintPrompt();
      Output(buffer[..index]);
    }

    method KeyApp(key: Key)
      requires Valid() && Safe(Model(), key)
      modifies this, buffer, history, history.data
      ensures Valid() && Model() == Press(old(Model()), key)
    {
      match key {
        case Char(c) => InsertChar(c);
        case Backspace => BackspaceKey();
        case Left => LeftKey();
        case Right => RightKey();
        case Up => UpKey();
        case Down => DownKey();
        case Enter(output) => EnterKey(output);
        case Tab(output, matches) => TabKey(output, matches);
      }
    }

    /** Over a whole run of keys, the screen keeps showing the line, and the line is what the keys make it. */
    method Run(keys: seq<Key>)
      requires Valid() && StateOk(Model()) && SafeRun(Model(), keys)
      modifies this, buffer, history, history.data
      ensures Valid() && Model() == PressAll(old(Model()), keys)
    {
      ghost var goal := PressAll(Model(), keys);
      assert keys[0..] == keys;
      for n := 0 to |keys|
        invariant Valid() && StateOk(Model()) && SafeRun(Model(), keys[n..])
        invariant PressAll(Model(), keys[n..]) == goal
      {
        assert keys[n..][0] == keys[n] && keys[n..][1..] == keys[n + 1..];
        PressOk(Model(), keys[n]);
        KeyApp(keys[n]);
      }
    }
  }

  /** The short erasing sequence used at the end of the line. */
  lemma ErasureBytes(t: Term, tail: string)
    requires tail == ""
    ensures Feed(t, [BS, ' ', BS]) == Erased(t, tail)
  {
    assert [BS, ' ', BS] == [BS] + [' ', BS] && Backs(0) == "";
    FeedConcat(t, [BS], [' ', BS]);
  }
}

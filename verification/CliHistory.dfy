/** The ring of remembered command lines. */
module CliHistory {

  const NUM: nat := 8
  const BUFFER_SIZE: nat := 100

  predicate Printable(c: char) {
    32 <= c as int <= 126
  }

  /** A line that can be typed and remembered. */
  predicate IsLine(s: string) {
    |s| <= BUFFER_SIZE && forall k :: 0 <= k < |s| ==> Printable(s[k])
  }

  /** UINT16 arithmetic. */
  function Dec16(n: nat): nat
    requires n < 65536
  {
    (n + 65535) % 65536
  }

  /** Remembering a line, newest first: repeating the newest line changes nothing, and at most NUM are kept. */
  function Remember(lines: seq<string>, line: string): seq<string> {
    if lines != [] && lines[0] == line then lines
    else if |lines| < NUM then [line] + lines
    else [line] + lines[..NUM - 1]
  }

  predicate NoRepeats(lines: seq<string>) {
    forall k :: 0 < k < |lines| ==> lines[k] != lines[k - 1]
  }

  lemma RememberKeepsNoRepeats(lines: seq<string>, line: string)
    requires NoRepeats(lines) && |lines| <= NUM
    ensures NoRepeats(Remember(lines, line)) && |Remember(lines, line)| <= NUM
    ensures Remember(lines, line) != [] && Remember(lines, line)[0] == line
    ensures forall k :: 0 < k < |Remember(lines, line)| ==>
                          Remember(lines, line)[k] == lines[if lines != [] && lines[0] == line then k else k - 1]
  {
  }

  /** The slot of the k-th newest line, counting from 0, when the next line goes to slot w. */
  function RingSlot(w: nat, k: nat): int {
    if k < w then w - 1 - k else w - 1 - k + NUM
  }

  predicate RingOk(slots: seq<string>, w: nat, n: nat) {
    |slots| == NUM && n <= NUM && w <= NUM && (n < NUM ==> w == n) && (n > 0 ==> w > 0)
  }

  /** The n lines in a ring of slots, newest first. */
  function RingLines(slots: seq<string>, w: nat, n: nat): (lines: seq<string>)
    requires RingOk(slots, w, n)
    ensures |lines| == n
  {
    seq(n, k requires 0 <= k < n => slots[RingSlot(w, k)])
  }

  lemma RingRemember(slots: seq<string>, w: nat, n: nat, line: string)
    requires RingOk(slots, w, n) && (n > 0 ==> slots[RingSlot(w, 0)] != line)
    ensures var w0 := if NUM <= w then 0 else w;
            var n' := if n < NUM then n + 1 else n;
            && RingOk(slots[w0 := line], w0 + 1, n')
            && RingLines(slots[w0 := line], w0 + 1, n') == Remember(RingLines(slots, w, n), line)
  {
  }

  class History {
    var writeIndex: nat
    var writeCount: nat
    var readIndex: nat
    var readCount: nat
    const data: array<string>

    ghost predicate Valid()
      reads this, data
    {
      && RingOk(data[..], writeIndex, writeCount) && readCount <= writeCount
      && (writeCount > 0 ==> readIndex == RingSlot(writeIndex, if Cursor() == 0 then 0 else Cursor() - 1))
      && (forall line :: line in Lines() ==> IsLine(line))
      && NoRepeats(Lines())
    }

    /** How many times Up has been pressed beyond Down since the last line was entered. */
    ghost function Cursor(): int
      reads this
    {
      writeCount - readCount
    }

    /** The remembered lines, newest first. */
    ghost function Lines(): seq<string>
      requires RingOk(data[..], writeIndex, writeCount)
      reads this, data
    {
      RingLines(data[..], writeIndex, writeCount)
    }

    constructor ()
      ensures Valid() && Lines() == [] && Cursor() == 0 && fresh(data)
    {
      writeIndex, writeCount, readIndex, readCount := 0, 0, 0, 0;
      data := new string[NUM](_ => "");
    }

    /** __cli_histroy_data_perv(): steps to the next older line. */
    method Prev() returns (found: bool, line: string)
      requires Valid()
      modifies this`readIndex, this`readCount
      ensures Valid() && Lines() == old(Lines())
      ensures found == (old(Cursor()) < |Lines()|)
      ensures found ==> Cursor() == old(Cursor()) + 1 && line == Lines()[old(Cursor())]
      ensures !found ==> Cursor() == old(Cursor())
    {
      if readCount == 0 {
        return false, "";
      }
      if readCount != writeCount {
        if readIndex == 0 {
          readIndex := NUM;
        }
        readIndex := readIndex - 1;
      }
      readCount := readCount - 1;
      found, line := true, data[readIndex];
    }

    /** __cli_histroy_data_next(): steps back to the next newer line, as far as the newest. */
    method Next() returns (found: bool, line: string)
      requires Valid()
      modifies this`readIndex, this`readCount
      ensures Valid() && Lines() == old(Lines())
      ensures found == (old(Cursor()) > 1)
      ensures found ==> Cursor() == old(Cursor()) - 1 && line == Lines()[Cursor() - 1]
      ensures !found ==> Cursor() == old(Cursor())
    {
      if writeCount <= readCount + 1 {
        return false, "";
      }
      readIndex := readIndex + 1;
      if readIndex == NUM {
        readIndex := 0;
      }
      readCount := readCount + 1;
      found, line := true, data[readIndex];
    }

    /** __cli_histroy_data_save(). */
    method Save(buffer: string)
      requires Valid() && IsLine(buffer)
      modifies this, data
      ensures Valid() && Lines() == Remember(old(Lines()), buffer) && Cursor() == 0
    {
      ghost var lines := Lines();
      readCount := writeCount;
      readIndex := Dec16(writeIndex);
      if readCount != 0 {
        var line := data[readIndex];
        readCount := readCount - 1;
        if buffer == line {
          readCount := writeCount;
          readIndex := Dec16(writeIndex);
          return;
        }
      }
      Store(buffer);
      RememberKeepsNoRepeats(lines, buffer);
    }

    /** The end of saving a line that is not a repetition: puts it into the next slot. */
    method Store(buffer: string)
      requires RingOk(data[..], writeIndex, writeCount)
      requires writeCount > 0 ==> data[RingSlot(writeIndex, 0)] != buffer
      modifies this, data
      ensures RingOk(data[..], writeIndex, writeCount) && Lines() == Remember(old(Lines()), buffer)
      ensures writeCount > 0 && readCount == writeCount && readIndex == RingSlot(writeIndex, 0)
    {
      RingRemember(data[..], writeIndex, writeCount, buffer);
      if NUM <= writeIndex {
        writeIndex := 0;
      }
      readIndex := writeIndex;
      if NUM > writeCount {
        writeCount := writeCount + 1;
      }
      readCount := writeCount;
      data[writeIndex] := buffer;
      assert data[..] == old(data[..])[writeIndex := buffer];
      writeIndex := writeIndex + 1;
    }
  }

  /** After a line has been entered, k presses of Up show the k newest lines, newest first, and k presses of Down then
      show them again in the opposite order, except that the last press finds nothing newer. */
  method UpThenDown(h: History, k: nat) returns (ups: seq<string>, downs: seq<string>, atEnd: bool)
    requires h.Valid() && h.Cursor() == 0 && 0 < k <= |h.Lines()|
    modifies h
    ensures h.Valid() && h.Lines() == old(h.Lines()) && h.Cursor() == 1 && atEnd
    ensures ups == h.Lines()[..k]
    ensures |downs| == k - 1 && forall j :: 0 <= j < k - 1 ==> downs[j] == ups[k - 2 - j]
  {
    ups, downs := [], [];
    var found, line := true, "";
    for i := 0 to k
      invariant h.Valid() && h.Lines() == old(h.Lines()) && h.Cursor() == i && ups == h.Lines()[..i]
    {
      found, line := h.Prev();
      ups := ups + [line];
    }
    for i := 1 to k
      invariant h.Valid() && h.Lines() == old(h.Lines()) && h.Cursor() == k - i + 1
      invariant |downs| == i - 1 && forall j :: 0 <= j < i - 1 ==> downs[j] == ups[k - 2 - j]
    {
      found, line := h.Next();
      downs := downs + [line];
    }
    found, line := h.Next();
    atEnd := !found;
  }
}

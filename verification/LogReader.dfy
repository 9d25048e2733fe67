/** Reading a task's log in pieces while it is being written. Content is bytes; decoding is the identity. */
module LogReader {
  import opened Wrappers

  newtype byte = b: int | 0 <= b < 256

  type Bytes = seq<byte>

  const NEWLINE: byte := 10
  const RETURN: byte := 13

  /** The position of the last newline. */
  function LastNewline(raw: Bytes): (i: Option<nat>)
    ensures i.None? <==> NEWLINE !in raw
    ensures i.Some? ==> i.value < |raw| && raw[i.value] == NEWLINE && NEWLINE !in raw[i.value + 1..]
  {
    if raw == [] then None
    else
      var last := |raw| - 1;
      if raw[last] == NEWLINE then Some(last)
      else
        var i := LastNewline(raw[..last]);
        assert i.Some? ==> raw[i.value + 1..] == raw[..last][i.value + 1..] + [raw[last]];
        assert raw == raw[..last] + [raw[last]];
        i
  }

  /** Splits at every newline; there is always one piece more than there are newlines. */
  function Split(text: Bytes): (pieces: seq<Bytes>)
    ensures |pieces| >= 1
  {
    if text == [] then [[]] else WithByte(Split(text[..|text| - 1]), text[|text| - 1])
  }

  /** One more byte: a newline opens a new piece, anything else extends the last one. */
  function WithByte(pieces: seq<Bytes>, c: byte): (longer: seq<Bytes>)
    requires |pieces| >= 1
    ensures |longer| == |pieces| + if c == NEWLINE then 1 else 0
  {
    if c == NEWLINE then pieces + [[]]
    else pieces[..|pieces| - 1] + [pieces[|pieces| - 1] + [c]]
  }

  lemma WithByteAppend(x: seq<Bytes>, y: seq<Bytes>, c: byte)
    requires |y| >= 1
    ensures WithByte(x + y, c) == x + WithByte(y, c)
  {
  }

  /** Drops carriage returns at the end of a line. */
  function StripReturns(line: Bytes): Bytes {
    if line != [] && line[|line| - 1] == RETURN then StripReturns(line[..|line| - 1]) else line
  }

  function StripAll(lines: seq<Bytes>): seq<Bytes> {
    seq(|lines|, i requires 0 <= i < |lines| => StripReturns(lines[i]))
  }

  predicate EndsLine(chunk: Bytes) {
    chunk != [] && chunk[|chunk| - 1] == NEWLINE
  }

  /** The lines of a chunk; a last line without a newline counts. */
  function Lines(chunk: Bytes): seq<Bytes> {
    if chunk == [] then []
    else if EndsLine(chunk) then StripAll(Split(chunk)[..|Split(chunk)| - 1])
    else StripAll(Split(chunk))
  }

  /**
   Reads from a position. Without `partial` only complete lines are read, with it everything; the
   new position is just behind what was read.
   */
  method ReadLogLines(content: Bytes, position: nat, partial: bool) returns (lines: seq<Bytes>, next: nat)
    ensures position <= next
    ensures position <= |content| ==> next <= |content| && lines == Lines(content[position..next])
    ensures position <= |content| && partial ==> next == |content|
    ensures position <= |content| && !partial ==>
      NEWLINE !in content[next..] && (next == position || EndsLine(content[position..next]))
    ensures lines == [] <==> next == position
  {
    hide Split, StripAll, Lines, LastNewline;
    var raw := if position <= |content| then content[position..] else [];
    if raw == [] {
      EmptyRead(content, position);
      return [], position;
    }
    var cut := |raw|;
    if !partial {
      var last := LastNewline(raw);
      if last.None? {
        EmptyRead(content, position);
        return [], position;
      }
      cut := last.value + 1;
      assert raw[cut..] == content[position + cut..];
    }
    var chunk := raw[..cut];
    assert chunk == content[position..position + cut];
    lines := Split(chunk);
    if EndsLine(chunk) {
      AtLeastOneLine(chunk);
      lines := lines[..|lines| - 1];
    }
    lines := StripAll(lines);
    SomeLines(chunk);
    next := position + cut;
  }

  lemma EmptyRead(content: Bytes, position: nat)
    ensures position <= |content| ==> content[position..position] == [] && Lines(content[position..position]) == []
  {
  }

  /** A chunk that is read is not empty, and has at least one line. */
  lemma SomeLines(chunk: Bytes)
    requires chunk != []
    ensures Lines(chunk) != []
    ensures Lines(chunk) == StripAll(if EndsLine(chunk) then Split(chunk)[..|Split(chunk)| - 1] else Split(chunk))
  {
  }

  lemma AtLeastOneLine(chunk: Bytes)
    requires EndsLine(chunk)
    ensures |Split(chunk)| >= 2
  {
  }

  // ---------- reading in pieces ----------

  lemma SplitLast(text: Bytes)
    requires text != []
    ensures Split(text) == WithByte(Split(text[..|text| - 1]), text[|text| - 1])
  {
  }

  lemma {:induction false} SplitAppend(a: Bytes, b: Bytes)
    requires EndsLine(a)
    ensures Split(a + b) == Split(a)[..|Split(a)| - 1] + Split(b)
  {
    if b == [] {
      assert a + b == a;
      var before := Split(a[..|a| - 1]);
      assert Split(a) == before + [[]];
    } else {
      var front := b[..|b| - 1];
      assert (a + b)[..|a + b| - 1] == a + front;
      SplitAppend(a, front);
      WithByteAppend(Split(a)[..|Split(a)| - 1], Split(front), b[|b| - 1]);
      hide Split, WithByte;
      assert Split(a + b) == WithByte(Split(a + front), b[|b| - 1]) by { SplitLast(a + b); }
      assert Split(b) == WithByte(Split(front), b[|b| - 1]) by { SplitLast(b); }
    }
  }

  /** The number of pieces grows with every newline. */
  lemma {:induction false} SplitSize(a: Bytes, b: Bytes)
    ensures |Split(a + b)| == |Split(a)| + |Split(b)| - 1
  {
    if b == [] {
      assert a + b == a;
    } else {
      var front := b[..|b| - 1];
      assert (a + b)[..|a + b| - 1] == a + front;
      SplitSize(a, front);
    }
  }

  /** Cutting a text between two reads changes nothing exactly when the cut is at a line end. */
  lemma LinesSplitIff(a: Bytes, b: Bytes)
    ensures Lines(a + b) == Lines(a) + Lines(b) <==> a == [] || b == [] || EndsLine(a)
  {
    if a == [] {
      assert a + b == b;
    } else if b == [] {
      assert a + b == a;
    } else {
      assert EndsLine(a + b) <==> EndsLine(b);
      SplitSize(a, b);
      if EndsLine(a) {
        SplitAppend(a, b);
        LinesAppend(a, b);
      }
    }
  }

  /** One byte read as a partial line, and one more that arrives later: two lines instead of one. */
  lemma LateByteSplitsALine()
    ensures Lines([65, 66]) != Lines([65]) + Lines([66])
  {
    LinesSplitIff([65], [66]);
    var a: Bytes, b: Bytes := [65], [66];
    assert a + b == [65, 66];
  }

  lemma LinesAppend(a: Bytes, b: Bytes)
    requires EndsLine(a) && b != [] && Split(a + b) == Split(a)[..|Split(a)| - 1] + Split(b)
    ensures Lines(a + b) == Lines(a) + Lines(b)
  {
    hide Split, StripReturns;
    assert EndsLine(a + b) <==> EndsLine(b);
    var x, y := Split(a)[..|Split(a)| - 1], Split(b);
    if EndsLine(b) {
      assert (x + y)[..|x + y| - 1] == x + y[..|y| - 1];
    }
  }

  /** The polls of a growing file, each seeing an earlier state of what is finally there. */
  ghost predicate Growing(snapshots: seq<Bytes>, final: Bytes) {
    && (forall i, j :: 0 <= i <= j < |snapshots| ==> snapshots[i] <= snapshots[j])
    && (forall i :: 0 <= i < |snapshots| ==> snapshots[i] <= final)
  }

  /**
   Tailing a log: complete lines at every poll, and one last read of whatever is left. What is
   emitted is what a single read of the final content gives.
   */
  method Tail(snapshots: seq<Bytes>, final: Bytes) returns (emitted: seq<Bytes>)
    requires Growing(snapshots, final)
    ensures emitted == Lines(final)
  {
    hide Lines, Split;
    var position := 0;
    emitted := [];
    NoLines();
    assert final[..0] == [];
    for i := 0 to |snapshots|
      invariant position <= |final| && (position == 0 || EndsLine(final[..position]))
      invariant forall j :: i <= j < |snapshots| ==> position <= |snapshots[j]|
      invariant emitted == Lines(final[..position])
    {
      var lines, next := ReadLogLines(snapshots[i], position, false);
      if lines != [] {
        SnapshotInside(snapshots[i], final, position, next);
        LinesSplitIff(final[..position], final[position..next]);
        assert final[..next] == final[..position] + final[position..next];
        emitted := emitted + lines;
        position := next;
      }
    }
    var lines, next := ReadLogLines(final, position, true);
    assert final == final[..position] + final[position..next];
    LinesSplitIff(final[..position], final[position..next]);
    if lines != [] {
      emitted := emitted + lines;
      position := next;
    }
  }

  lemma NoLines()
    ensures Lines([]) == []
  {
  }

  lemma SnapshotInside(snapshot: Bytes, final: Bytes, position: nat, next: nat)
    requires snapshot <= final && position <= next <= |snapshot|
    ensures snapshot[position..next] == final[position..next]
  {
  }

  // ---------- what the lines are ----------

  function Repeated(b: byte, n: nat): Bytes {
    if n == 0 then [] else Repeated(b, n - 1) + [b]
  }

  /** Lines as they are written: each followed by some carriage returns, perhaps none, and a newline. */
  function Written(lines: seq<Bytes>, endings: seq<nat>): Bytes
    requires |endings| == |lines|
  {
    if lines == [] then []
    else lines[0] + Repeated(13, endings[0]) + [10] + Written(lines[1..], endings[1..])
  }

  predicate IsLine(line: Bytes) {
    10 !in line && (line != [] ==> line[|line| - 1] != 13)
  }

  lemma {:induction false} SplitWithout(text: Bytes)
    requires 10 !in text
    ensures Split(text) == [text]
    decreases |text|
  {
    if text != [] {
      var front := text[..|text| - 1];
      SplitWithout(front);
      assert text == front + [text[|text| - 1]];
    }
  }

  lemma {:induction false} ReturnsStripped(line: Bytes, n: nat)
    requires line != [] ==> line[|line| - 1] != 13
    ensures StripReturns(line + Repeated(13, n)) == line
    ensures 10 !in Repeated(13, n)
  {
    if n == 0 {
      assert line + Repeated(13, n) == line;
    } else {
      var text := line + Repeated(13, n);
      assert text[..|text| - 1] == line + Repeated(13, n - 1);
      ReturnsStripped(line, n - 1);
    }
  }

  lemma OneLine(line: Bytes, n: nat)
    requires IsLine(line)
    ensures Lines(line + Repeated(13, n) + [10]) == [line] && EndsLine(line + Repeated(13, n) + [10])
  {
    var text := line + Repeated(13, n);
    ReturnsStripped(line, n);
    SplitWithout(text);
    assert (text + [10])[..|text|] == text;
    assert Split(text + [10]) == WithByte(Split(text), 10);
    hide Split, StripReturns;
    assert Split(text + [10])[..1] == [text];
  }

  /** Lines that were written are read back as they were, whatever carriage returns came before the newlines. */
  lemma {:induction false} WrittenIsReadBack(lines: seq<Bytes>, endings: seq<nat>)
    requires |endings| == |lines| && forall i :: 0 <= i < |lines| ==> IsLine(lines[i])
    ensures Lines(Written(lines, endings)) == lines
  {
    if lines != [] {
      var first, rest := lines[0] + Repeated(13, endings[0]) + [10], Written(lines[1..], endings[1..]);
      OneLine(lines[0], endings[0]);
      WrittenIsReadBack(lines[1..], endings[1..]);
      hide Lines;
      LinesSplitIff(first, rest);
      assert Written(lines, endings) == first + rest;
    }
  }

  /** And an unfinished line behind them is the last one. */
  lemma UnfinishedIsRead(lines: seq<Bytes>, endings: seq<nat>, last: Bytes, n: nat)
    requires |endings| == |lines| && (forall i :: 0 <= i < |lines| ==> IsLine(lines[i])) && IsLine(last)
    requires last + Repeated(13, n) != []
    ensures Lines(Written(lines, endings) + (last + Repeated(13, n))) == lines + [last]
  {
    var text := last + Repeated(13, n);
    ReturnsStripped(last, n);
    SplitWithout(text);
    assert Lines(text) == [last];
    WrittenIsReadBack(lines, endings);
    WrittenEndsLine(lines, endings);
    hide Lines;
    LinesSplitIff(Written(lines, endings), text);
  }

  lemma {:induction false} WrittenEndsLine(lines: seq<Bytes>, endings: seq<nat>)
    requires |endings| == |lines|
    ensures Written(lines, endings) == [] || EndsLine(Written(lines, endings))
  {
    if lines != [] {
      WrittenEndsLine(lines[1..], endings[1..]);
    }
  }
}

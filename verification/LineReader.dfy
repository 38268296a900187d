/**
 The chunk loop of the event stream reader (apps/vscode/src/eventStream.ts) over an arbitrary line
 consumer: text arrives in chunks, complete lines are taken off the front of a buffer, and the bytes
 still buffered are accounted additively. Nothing here depends on what a line means.
 */
module LineReader {
  import opened Text

  /** A line consumer: `step` takes one line; once `live` is false no more lines are taken. */
  datatype Consumer<!C> = Consumer(step: (C, string) -> C, live: C -> bool)

  /** The consumer's state, the unconsumed text and its accounted size. */
  datatype Intake<C> = Intake(state: C, buffer: string, bytes: int)

  function LineBytes(raw: string): (n: nat) { ByteLen(raw) + 1 }

  /** Take the line that ends at `newline` off the buffer, its line feed with it. */
  ghost function LineTaken<C>(m: Consumer<C>, r: Intake<C>, newline: nat): (q: Intake<C>)
    requires newline < |r.buffer|
    ensures |q.buffer| < |r.buffer|
  {
    var raw := r.buffer[..newline];
    Intake(m.step(r.state, raw), r.buffer[newline + 1..], r.bytes - LineBytes(raw))
  }

  /** Take every complete line off the buffer, stopping when the consumer refuses. */
  ghost function Drain<C>(m: Consumer<C>, r: Intake<C>): (q: Intake<C>)
    decreases |r.buffer|
  {
    var newline := IndexOf(r.buffer, '\n');
    if !m.live(r.state) || newline < 0 then r
    else Drain(m, LineTaken(m, r, newline))
  }

  ghost function Push<C>(m: Consumer<C>, r: Intake<C>, chunk: string): (q: Intake<C>)
  {
    Drain(m, Intake(r.state, r.buffer + chunk, r.bytes + ByteLen(chunk)))
  }

  lemma {:induction false} DrainTakesLine<C>(m: Consumer<C>, r: Intake<C>, newline: nat)
    requires m.live(r.state) && newline == IndexOf(r.buffer, '\n')
    ensures newline < |r.buffer|
    ensures Drain(m, r) == Drain(m, LineTaken(m, r, newline))
  {
    hide ByteLen, LineBytes, IndexOf, LineTaken;
  }

  lemma {:induction false} DrainStops<C>(m: Consumer<C>, r: Intake<C>)
    requires !m.live(r.state) || IndexOf(r.buffer, '\n') < 0
    ensures Drain(m, r) == r
  {
  }

  /** The one-pass reference: lines one after another, a refusal is final. */
  function ReadLines<C>(m: Consumer<C>, c: C, lines: seq<string>): (d: C)
  {
    if lines == [] then c
    else
      var p := ReadLines(m, c, lines[..|lines| - 1]);
      if m.live(p) then m.step(p, lines[|lines| - 1]) else p
  }

  lemma {:induction false} ReadLinesConcat<C>(m: Consumer<C>, c: C, a: seq<string>, b: seq<string>)
    ensures ReadLines(m, c, a + b) == ReadLines(m, ReadLines(m, c, a), b)
  {
    if b == [] {
      assert a + b == a;
    } else {
      assert (a + b)[..|a + b| - 1] == a + b[..|b| - 1];
      ReadLinesConcat(m, c, a, b[..|b| - 1]);
    }
  }

  lemma {:induction false} RefusalIsFinal<C>(m: Consumer<C>, c: C, lines: seq<string>)
    requires !m.live(c)
    ensures ReadLines(m, c, lines) == c
  {
    if lines != [] {
      RefusalIsFinal(m, c, lines[..|lines| - 1]);
    }
  }

  lemma RefusalOrNothing<C>(m: Consumer<C>, c: C)
    ensures ReadLines(m, c, []) == c
  {
  }

  lemma ReadFirstLine<C>(m: Consumer<C>, c: C, raw: string, more: seq<string>)
    requires m.live(c)
    ensures ReadLines(m, c, [raw] + more) == ReadLines(m, m.step(c, raw), more)
  {
    ReadLinesConcat(m, c, [raw], more);
    assert [raw][..0] == [];
    assert ReadLines(m, c, []) == c;
  }

  lemma TakeLine(buffer: string, newline: nat)
    requires newline < |buffer| && buffer[newline] == '\n' && '\n' !in buffer[..newline]
    ensures Lines(buffer) == [buffer[..newline]] + Lines(buffer[newline + 1..])
    ensures Rest(buffer) == Rest(buffer[newline + 1..])
    ensures ByteLen(buffer) == LineBytes(buffer[..newline]) + ByteLen(buffer[newline + 1..])
  {
    var raw, more := buffer[..newline], buffer[newline + 1..];
    assert buffer == raw + ['\n'] + more;
    LinesFirst(raw, more);
    ByteLenConcat(raw + ['\n'], more);
    ByteLenConcat(raw, ['\n']);
    assert ByteLen(['\n']) == 1 by { assert ['\n'][..0] == ""; }
  }

  /** The byte accounting mirrors the buffer. */
  ghost predicate Counted<C>(r: Intake<C>) { r.bytes == ByteLen(r.buffer) }

  /** The reader stands where the one-pass reading of `text` from `c` stands. */
  ghost predicate InStep<C>(m: Consumer<C>, c: C, r: Intake<C>, text: string)
  {
    && Counted(r)
    && r.state == ReadLines(m, c, Lines(text))
    && (m.live(r.state) ==> r.buffer == Rest(text))
  }

  lemma {:induction false} DrainReadsLines<C>(m: Consumer<C>, r: Intake<C>)
    requires Counted(r) && m.live(r.state)
    ensures InStep(m, r.state, Drain(m, r), r.buffer)
    decreases |r.buffer|
  {
    hide ReadLines, Lines, Rest, ByteLen;
    var newline := IndexOf(r.buffer, '\n');
    if newline < 0 {
      NoNewline(r.buffer);
      assert ReadLines(m, r.state, []) == r.state by { RefusalOrNothing(m, r.state); }
    } else {
      var raw, more := r.buffer[..newline], r.buffer[newline + 1..];
      TakeLine(r.buffer, newline);
      ReadFirstLine(m, r.state, raw, Lines(more));
      var r' := Intake(m.step(r.state, raw), more, r.bytes - LineBytes(raw));
      if m.live(r'.state) {
        DrainReadsLines(m, r');
      } else {
        RefusalIsFinal(m, r'.state, Lines(more));
      }
    }
  }

  /** Reading `text` and then `chunk` is reading `text + chunk`. */
  lemma {:induction false} PushReadsLines<C>(m: Consumer<C>, c: C, r: Intake<C>, text: string, chunk: string)
    requires m.live(r.state) && InStep(m, c, r, text)
    ensures InStep(m, c, Push(m, r, chunk), text + chunk)
  {
    hide Drain, ReadLines, Lines, Rest, ByteLen;
    ByteLenConcat(r.buffer, chunk);
    LinesConcat(text, chunk);
    Resume(m, c, Lines(text), Intake(r.state, r.buffer + chunk, r.bytes + ByteLen(chunk)), text + chunk);
  }

  lemma {:induction false} Resume<C>(m: Consumer<C>, c: C, before: seq<string>, r: Intake<C>, whole: string)
    requires m.live(r.state) && Counted(r) && r.state == ReadLines(m, c, before)
    requires Lines(whole) == before + Lines(r.buffer) && Rest(whole) == Rest(r.buffer)
    ensures InStep(m, c, Drain(m, r), whole)
  {
    hide Drain, ReadLines, Lines, Rest, ByteLen;
    DrainReadsLines(m, r);
    ReadLinesConcat(m, c, before, Lines(r.buffer));
  }
}

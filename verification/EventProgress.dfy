/**
 Progress of the durable event stream (apps/vscode/src/eventStream.ts): whatever happened before, a connection on which
 the server writes the rest of the journal delivers all of it.
 */
module EventProgress {
  import opened Text
  import opened LineReader
  import opened SseFrames
  import opened SseReader
  import opened SseWire
  import opened SseDelivery
  import opened EventRuns

  /** The chunks arrive one after another on connection `i`. */
  function ChunkSteps(i: nat, chunks: seq<string>): (steps: seq<Step>)
  {
    if chunks == [] then [] else ChunkSteps(i, chunks[..|chunks| - 1]) + [Chunk(i, chunks[|chunks| - 1])]
  }

  /** A system reads chunks on one connection as that connection's reader does. */
  lemma {:induction false} ChunksRun(cfg: Config, s: System, i: nat, chunks: seq<string>)
    requires i < |s.conns| && s.conns[i].open
    ensures var t, q := Run(cfg, s, ChunkSteps(i, chunks)), FeedAll(cfg, ReaderOf(s, s.conns[i]), chunks);
            && |t.conns| == |s.conns| && t.sink == q.state.sink && (t.conns[i].open <==> q.state.verdict.Live?)
            && (t.conns[i].open ==> ReaderOf(t, t.conns[i]) == q)
  {
    hide Feed;
    if chunks != [] {
      var init, chunk := chunks[..|chunks| - 1], chunks[|chunks| - 1];
      ChunksRun(cfg, s, i, init);
      RunNext(cfg, s, ChunkSteps(i, init), Chunk(i, chunk));
    }
  }

  /** MAIN: after any run, if the stream is running, connecting again and being sent the rows after the cursor, written
      as lines that the client's readers read back and within its budget, delivers every row of the journal after the
      starting cursor, however the text is cut, and leaves the connection open. */
  lemma {:induction false} RestOfJournalIsDelivered(cfg: Config, journal: seq<Event>, start: nat, steps: seq<Step>,
                                                    ws: seq<Written>, chunks: seq<string>)
    requires Increasing(journal) && FaithfulRun(cfg, journal, Initial(start), steps)
    requires var s := Run(cfg, Initial(start), steps);
             !s.stopped && AllWrite(cfg, ws, journal[Position(journal, s.sink.cursor)..])
    requires forall i :: 0 <= i < |ws| ==> Fits(cfg, ws[i])
    requires Concat(chunks) == TextOf(RowLines(ws))
    ensures var s := Run(cfg, Initial(start), steps);
            var t := Run(cfg, Next(cfg, s, Connect), ChunkSteps(|s.conns|, chunks));
            && t.sink.delivered == journal[Position(journal, start)..]
            && |t.conns| == |s.conns| + 1 && t.conns[|s.conns|].open
  {
    hide Run, Position, Fits, AllWrite, FeedAll, FaithfulServer;
    var s := Run(cfg, Initial(start), steps);
    var from, k := Position(journal, start), Position(journal, s.sink.cursor);
    DeliversTheJournal(cfg, journal, start, steps);
    RangeIsForward(cfg, journal, start, s);
    PositionSplits(journal, s.sink.cursor);
    var rest, u := journal[k..], Next(cfg, s, Connect);
    assert Ahead(s.sink.cursor, rest);
    WrittenRowsAreDelivered(cfg, s.sink, ws, rest, chunks);
    assert ReaderOf(u, u.conns[|s.conns|]) == NewReader(s.sink);
    ChunksRun(cfg, u, |s.conns|, chunks);
    assert journal[from..k] + rest == journal[from..];
  }
}

/**
 The durable event stream's reader over its byte budget (apps/vscode/src/eventStream.ts): a frame that grows
 past the budget is refused, and whether the way the response was cut into chunks shows in that refusal.
 */
module SseBudget {
  import opened Text
  import opened LineReader
  import opened SseFrames
  import opened SseReader

  /** What a connection did: the dispatch calls and the callbacks with the cursor, and the refusal. */
  datatype Outcome = Outcome(sink: Sink, verdict: Verdict)

  function OutcomeOf(c: Core): (o: Outcome) { Outcome(c.sink, c.verdict) }

  ghost function ReadChunks(cfg: Config, sink: Sink, chunks: seq<string>): (o: Outcome)
  {
    OutcomeOf(FeedAll(cfg, NewReader(sink), chunks).state)
  }

  /** Every way of cutting the text into chunks has the same outcome. */
  ghost predicate CutAnyWay(cfg: Config, sink: Sink, text: string)
  {
    forall xs, ys :: Concat(xs) == text && Concat(ys) == text ==>
      ReadChunks(cfg, sink, xs) == ReadChunks(cfg, sink, ys)
  }

  /** The first character at which the frame being read is past the budget. */
  ghost predicate FirstOver(cfg: Config, c: Core, text: string, k: nat)
  {
    && k <= |text| && !WithinAt(cfg, c, text[..k])
    && forall j :: 0 <= j < k ==> WithinAt(cfg, c, text[..j])
  }

  /** A line that a frame already past its budget is refused at, just as it would be before the line's end: not
      a blank one, not an unreadable id, and not an id the frame does not have yet. */
  predicate SameRefusal(cfg: Config, f: Frame, raw: string)
  {
    match Classify(cfg, raw)
    case Blank => false
    case BadId => false
    case GoodId(id) => f.id == Some(id)
    case _ => true
  }

  /** The line that crosses the budget never ends, or ends in the refusal it would get unfinished. */
  ghost predicate Harmless(cfg: Config, c: Core, text: string, k: nat)
    requires k <= |text|
  {
    '\n' in text[k..] ==> SameRefusal(cfg, ReadAll(cfg, c, text[..k]).frame, CrossingLine(text, k))
  }

  /** The line in progress at `k`, up to the newline that ends it. */
  ghost function CrossingLine(text: string, k: nat): (raw: string)
    requires k <= |text| && '\n' in text[k..]
  {
    Rest(text[..k]) + text[k..][..IndexOf(text[k..], '\n')]
  }

  // ------------------------------------------------------- the crossing line

  /** While the crossing line goes on, the reader's state stays put and stays over the budget. */
  lemma StillOver(cfg: Config, c: Core, text: string, k: nat, m: nat)
    requires k <= m <= |text| && '\n' !in text[k..m] && !WithinAt(cfg, c, text[..k])
    ensures ReadAll(cfg, c, text[..m]) == ReadAll(cfg, c, text[..k]) && !WithinAt(cfg, c, text[..m])
  {
    hide ReadLines;
    var rest, more := Rest(text[..k]), text[k..m];
    assert text[..m] == text[..k] + more;
    LinesConcat(text[..k], more);
    NoNewline(rest + more);
    assert Lines(text[..m]) == Lines(text[..k]);
    ByteLenConcat(rest, more);
  }

  /** Its newline makes it the next line read. */
  lemma LineCompleted(cfg: Config, c: Core, text: string, k: nat) returns (e: nat)
    requires k <= |text| && '\n' in text[k..] && ReadAll(cfg, c, text[..k]).verdict.Live?
    ensures k <= e < |text| && '\n' !in text[k..e]
    ensures ReadAll(cfg, c, text[..e + 1]) ==
            TokenStep(RulesOf(cfg), ReadAll(cfg, c, text[..k]), Tokenize(cfg, CrossingLine(text, k)))
    ensures Rest(text[..e + 1]) == ""
  {
    hide TokenStep, Tokenize, RulesOf;
    var i := IndexOf(text[k..], '\n');
    e := k + i;
    assert text[k..e] == text[k..][..i];
    var raw, m := CrossingLine(text, k), FrameReader(cfg);
    assert text[..e + 1] == text[..k] + (text[k..e] + ['\n']);
    LinesConcat(text[..k], text[k..e] + ['\n']);
    assert Rest(text[..k]) + (text[k..e] + ['\n']) == raw + ['\n'] + "";
    LinesFirst(raw, "");
    assert [raw] + Lines("") == [raw];
    var before := Lines(text[..k]);
    assert (before + [raw])[..|before|] == before;
  }

  /** Reading that line has the outcome of refusing the frame before it exactly when the line is harmless; a blank
      line is dispatched and nothing takes a dispatch back. */
  lemma CompletionOutcome(cfg: Config, d: Core, raw: string)
    requires d.verdict.Live? && d.frame.bytes + ByteLen(raw) > cfg.maxFrameBytes
    ensures var next := TokenStep(RulesOf(cfg), d, Tokenize(cfg, raw));
            var refused := Outcome(d.sink, Oversized(d.frame));
            && (SameRefusal(cfg, d.frame, raw) ==> OutcomeOf(next) == refused)
            && (!SameRefusal(cfg, d.frame, raw) ==>
                  OutcomeOf(next) != refused
                  && (next.verdict.Live? ==> |next.sink.dispatched| > |d.sink.dispatched| && next.frame == FreshFrame))
  {
    hide Judge, Classify, ByteLen;
  }

  lemma {:induction false} DispatchesStay(cfg: Config, c: Core, lines: seq<string>)
    ensures |ReadLines(FrameReader(cfg), c, lines).sink.dispatched| >= |c.sink.dispatched|
  {
    hide Judge, Classify;
    if lines != [] {
      DispatchesStay(cfg, c, lines[..|lines| - 1]);
    }
  }

  // ------------------------------------------------------------ both directions

  lemma {:induction false} FirstOverExists(cfg: Config, c: Core, text: string, n: nat) returns (k: nat)
    requires n <= |text| && !WithinAt(cfg, c, text[..n])
    ensures FirstOver(cfg, c, text, k)
  {
    hide WithinAt;
    if j: nat :| j < n && !WithinAt(cfg, c, text[..j]) {
      k := FirstOverExists(cfg, c, text, j);
    } else {
      k := n;
    }
  }

  /** Over the budget with a harmless crossing line, every way of cutting gives the refusal of the frame before that
      line: a reader short of the crossing is still live, and one past it has refused. */
  lemma {:induction false} EveryCutRefuses(cfg: Config, sink: Sink, text: string, k: nat, chunks: seq<string>)
    requires FirstOver(cfg, FreshCore(sink), text, k) && Harmless(cfg, FreshCore(sink), text, k)
    requires Concat(chunks) <= text
    ensures var c, q, seen := FreshCore(sink), FeedAll(cfg, NewReader(sink), chunks), Concat(chunks);
            var d := ReadAll(cfg, c, text[..k]);
            && (|seen| < k ==> q.state.verdict.Live? && Caught(cfg, c, q, seen))
            && (|seen| >= k ==> OutcomeOf(q.state) == Outcome(d.sink, Oversized(d.frame)))
  {
    hide ReadAll, Feed, TokenStep, Caught, WithinAt;
    var c := FreshCore(sink);
    if chunks == [] {
      NothingRead(cfg, sink, text, k);
    } else {
      var init, chunk := chunks[..|chunks| - 1], chunks[|chunks| - 1];
      EveryCutRefuses(cfg, sink, text, k, init);
      var before, seen := Concat(init), Concat(chunks);
      if chunk == "" {
        assert seen == before;
        EmptyFeed(cfg, FeedAll(cfg, NewReader(sink), init));
      } else if |before| < k {
        CutAcross(cfg, c, text, k, FeedAll(cfg, NewReader(sink), init), before, chunk);
      }
    }
  }

  lemma EmptyFeed(cfg: Config, r: Reader)
    ensures Feed(cfg, r, "") == r
  {
  }

  lemma NothingRead(cfg: Config, sink: Sink, text: string, k: nat)
    requires FirstOver(cfg, FreshCore(sink), text, k)
    ensures k > 0 && Caught(cfg, FreshCore(sink), NewReader(sink), "")
  {
    assert text[..0] == "";
  }

  /** One chunk of a reader that is still short of the crossing. */
  lemma CutAcross(cfg: Config, c: Core, text: string, k: nat, r: Reader, before: string, chunk: string)
    requires FirstOver(cfg, c, text, k) && Harmless(cfg, c, text, k)
    requires r.state.verdict.Live? && Caught(cfg, c, r, before) && chunk != ""
    requires before + chunk <= text && |before| < k
    ensures var q, seen := Feed(cfg, r, chunk), before + chunk;
            var d := ReadAll(cfg, c, text[..k]);
            && (|seen| < k ==> q.state.verdict.Live? && Caught(cfg, c, q, seen))
            && (|seen| >= k ==> OutcomeOf(q.state) == Outcome(d.sink, Oversized(d.frame)))
  {
    hide ReadLines, Lines, Rest, ByteLen, Feed, TokenStep, Tokenize, Judge, SameRefusal;
    var seen := before + chunk;
    var m := |seen|;
    assert seen == text[..m];
    FeedReadsLines(cfg, c, r, before, chunk);
    if m < k {
      LiveBefore(cfg, c, text, k, m);
    } else if '\n' !in text[k..m] {
      StillOver(cfg, c, text, k, m);
    } else {
      var d, raw := ReadAll(cfg, c, text[..k]), CrossingLine(text, k);
      var e := LineCompleted(cfg, c, text, k);
      ByteLenConcat(Rest(text[..k]), text[k..][..IndexOf(text[k..], '\n')]);
      CompletionOutcome(cfg, d, raw);
      assert e + 1 <= m;
      assert seen == text[..e + 1] + text[e + 1..m];
      RefusedStaysRefused(cfg, c, text[..e + 1], text[e + 1..m]);
    }
  }

  lemma LiveBefore(cfg: Config, c: Core, text: string, k: nat, m: nat)
    requires m <= k <= |text| && ReadAll(cfg, c, text[..k]).verdict.Live?
    ensures ReadAll(cfg, c, text[..m]).verdict.Live?
  {
    hide ReadAll;
    if !ReadAll(cfg, c, text[..m]).verdict.Live? {
      assert text[..k] == text[..m] + text[m..k];
      RefusedStaysRefused(cfg, c, text[..m], text[m..k]);
    }
  }

  /** A text cut once: the first chunk is refused for its size, or by a line, or is read on from. */
  lemma CutOnce(cfg: Config, sink: Sink, text: string, n: nat)
    requires 0 < n <= |text|
    ensures Concat([text[..n], text[n..]]) == text
    ensures var c, o := FreshCore(sink), ReadChunks(cfg, sink, [text[..n], text[n..]]);
            var d := ReadAll(cfg, c, text[..n]);
            && (!WithinAt(cfg, c, text[..n]) ==> o == Outcome(d.sink, Oversized(d.frame)))
            && (WithinAt(cfg, c, text[..n]) && !d.verdict.Live? ==> o == OutcomeOf(d))
            && (WithinAt(cfg, c, text[..n]) && d.verdict.Live? ==> o.sink == ReadAll(cfg, c, text).sink)
  {
    hide Feed, ReadLines, Lines, Rest, ByteLen;
    var c, r, first, second := FreshCore(sink), NewReader(sink), text[..n], text[n..];
    assert [first, second][..1] == [first] && [first][..0] == [];
    assert "" + first == first && first + second == text;
    ConcatTwo(first, second);
    assert Caught(cfg, c, r, "") by { EmptyText(cfg, c, r); }
    FeedReadsLines(cfg, c, r, "", first);
    FeedAllFirst(cfg, r, first);
    var p := Feed(cfg, r, first);
    if p.state.verdict.Live? {
      if second == "" {
        assert first == text;
        EmptyFeed(cfg, p);
      } else {
        FeedReadsLines(cfg, c, p, first, second);
      }
    }
  }

  lemma EmptyText(cfg: Config, c: Core, r: Reader)
    requires r == Intake(c, "", 0)
    ensures Caught(cfg, c, r, "")
  {
  }

  lemma ConcatTwo(a: string, b: string)
    ensures Concat([a, b]) == a + b
  {
    assert [a, b][..1] == [a] && [a][..0] == [];
    assert Concat([a]) == "" + a;
  }

  /** Cutting after a crossing line that is not harmless does not give the refusal of the frame before it. */
  lemma LateCut(cfg: Config, sink: Sink, text: string, k: nat) returns (n: nat)
    requires FirstOver(cfg, FreshCore(sink), text, k) && !Harmless(cfg, FreshCore(sink), text, k)
    ensures 0 < n <= |text|
    ensures var d := ReadAll(cfg, FreshCore(sink), text[..k]);
            ReadChunks(cfg, sink, [text[..n], text[n..]]) != Outcome(d.sink, Oversized(d.frame))
  {
    hide ReadChunks, ReadLines, Lines, Rest, ByteLen, TokenStep, Tokenize, SameRefusal, Oversized;
    var c := FreshCore(sink);
    var d, raw := ReadAll(cfg, c, text[..k]), CrossingLine(text, k);
    var e := LineCompleted(cfg, c, text, k);
    n := e + 1;
    ByteLenConcat(Rest(text[..k]), text[k..][..IndexOf(text[k..], '\n')]);
    CompletionOutcome(cfg, d, raw);
    CutOnce(cfg, sink, text, n);
    if ReadAll(cfg, c, text[..n]).verdict.Live? {
      assert WithinAt(cfg, c, text[..n]) by { assert ByteLen("") == 0 by { EmptyBytes(); } }
      DispatchesGrow(cfg, c, text, n);
    }
  }

  lemma EmptyBytes()
    ensures ByteLen("") == 0
  {
  }

  lemma DispatchesGrow(cfg: Config, c: Core, text: string, n: nat)
    requires n <= |text|
    ensures |ReadAll(cfg, c, text).sink.dispatched| >= |ReadAll(cfg, c, text[..n]).sink.dispatched|
  {
    hide ReadLines, Lines, Rest;
    assert text == text[..n] + text[n..];
    LinesConcat(text[..n], text[n..]);
    var more := Lines(Rest(text[..n]) + text[n..]);
    ReadLinesConcat(FrameReader(cfg), c, Lines(text[..n]), more);
    DispatchesStay(cfg, ReadAll(cfg, c, text[..n]), more);
  }

  /** Over the budget with a crossing line that is not harmless, cutting at the crossing and cutting after the line
      are told apart. */
  lemma TwoCutsDiffer(cfg: Config, sink: Sink, text: string, k: nat)
    requires FirstOver(cfg, FreshCore(sink), text, k) && !Harmless(cfg, FreshCore(sink), text, k)
    ensures !CutAnyWay(cfg, sink, text)
  {
    hide ReadChunks, Concat, WithinAt, ReadAll, Harmless, Oversized;
    var n := LateCut(cfg, sink, text, k);
    NothingRead(cfg, sink, text, k);
    CutOnce(cfg, sink, text, k);
    CutOnce(cfg, sink, text, n);
    var early, late := [text[..k], text[k..]], [text[..n], text[n..]];
    assert ReadChunks(cfg, sink, early) != ReadChunks(cfg, sink, late);
  }

  /** MAIN: the way a text is cut into chunks never shows if and only if the text stays within the budget, or the
      line that first crosses it never ends or is refused at its end as it would be unfinished. */
  lemma CutAnyWayIff(cfg: Config, sink: Sink, text: string)
    ensures CutAnyWay(cfg, sink, text) <==>
              || InBudget(cfg, FreshCore(sink), text)
              || exists k: nat :: FirstOver(cfg, FreshCore(sink), text, k) && Harmless(cfg, FreshCore(sink), text, k)
  {
    hide FeedAll, WithinAt, Harmless;
    var c := FreshCore(sink);
    if InBudget(cfg, c, text) {
      forall xs, ys | Concat(xs) == text && Concat(ys) == text
        ensures ReadChunks(cfg, sink, xs) == ReadChunks(cfg, sink, ys)
      {
        ChunkingsAgree(cfg, c, xs, ys);
      }
    } else {
      var n: nat :| n <= |text| && !WithinAt(cfg, c, text[..n]);
      var k := FirstOverExists(cfg, c, text, n);
      if Harmless(cfg, c, text, k) {
        forall xs, ys | Concat(xs) == text && Concat(ys) == text
          ensures ReadChunks(cfg, sink, xs) == ReadChunks(cfg, sink, ys)
        {
          EveryCutRefuses(cfg, sink, text, k, xs);
          EveryCutRefuses(cfg, sink, text, k, ys);
        }
      } else {
        forall j: nat | FirstOver(cfg, c, text, j) ensures j == k {
        }
        TwoCutsDiffer(cfg, sink, text, k);
      }
    }
  }

  // --------------------------------------------------------- a case in point

  const SmallBudget := Config((s: string) => s, (s: string) => Some(1), (s: string) => Malformed, 5)

  lemma ExampleLines()
    ensures Lines(":aa\nid:1\n") == [":aa", "id:1"]
    ensures Lines(":aa\nid:1") == [":aa"] && Rest(":aa\nid:1") == "id:1"
    ensures ByteLen(":aa") == 3 && ByteLen("id:1") == 4
  {
    LinesFirst(":aa", "id:1\n");
    LinesFirst(":aa", "id:1");
    LinesFirst("id:1", "");
    NoNewline("id:1");
    assert ":aa\nid:1\n" == ":aa" + ['\n'] + "id:1\n" && ":aa\nid:1" == ":aa" + ['\n'] + "id:1";
    assert "id:1\n" == "id:1" + ['\n'] + "";
    AsciiBytes(":aa");
    AsciiBytes("id:1");
  }

  lemma ExampleTokens()
    ensures Tokenize(SmallBudget, ":aa") == Token(Comment, 4)
    ensures Tokenize(SmallBudget, "id:1") == Token(GoodId(1), 5)
  {
    ExampleLines();
    var comment, line := ":aa", "id:1";
    assert comment[..1] == ":";
    OtherPrefix(line, ":");
    OtherPrefix(line, "event:");
    assert line[..3] == "id:" && line[3..] == "1";
  }

  lemma ExampleReads(c: Core)
    requires c.verdict.Live? && c.frame == FreshFrame
    ensures var m := FrameReader(SmallBudget);
            && ReadLines(m, c, [":aa"]) == Core(Frame(None, None, 4, []), c.sink, Live)
            && ReadLines(m, c, [":aa", "id:1"]) == Core(Frame(None, Some(1), 9, []), c.sink, Blocked(Some(1)))
  {
    hide Tokenize;
    ExampleTokens();
    var m, one := FrameReader(SmallBudget), Core(Frame(None, None, 4, []), c.sink, Live);
    assert [":aa", "id:1"][..1] == [":aa"] && [":aa"][..0] == [];
    assert ReadLines(m, c, [":aa"]) == m.step(c, ":aa") == one;
    assert ReadLines(m, c, [":aa", "id:1"]) == m.step(one, "id:1");
  }

  lemma FeedAllFirst(cfg: Config, r: Reader, chunk: string)
    requires r.state.verdict.Live?
    ensures FeedAll(cfg, r, [chunk]) == Feed(cfg, r, chunk)
  {
    assert [chunk][..0] == [];
    assert FeedAll(cfg, r, []) == r;
  }

  lemma RefusedAtOnce(cfg: Config, r: Reader, chunk: string, more: string)
    requires r.state.verdict.Live? && !Feed(cfg, r, chunk).state.verdict.Live?
    ensures FeedAll(cfg, r, [chunk, more]) == Feed(cfg, r, chunk)
  {
    FeedAllFirst(cfg, r, chunk);
    assert [chunk, more][..1] == [chunk];
  }

  lemma ExampleFeeds(sink: Sink)
    ensures Feed(SmallBudget, NewReader(sink), ":aa\nid:1\n").state.verdict == Blocked(Some(1))
    ensures Feed(SmallBudget, NewReader(sink), ":aa\nid:1").state.verdict == Failed
  {
    var c := FreshCore(sink);
    ExampleLines();
    ExampleReads(c);
    assert "" + ":aa\nid:1\n" == ":aa\nid:1\n" && "" + ":aa\nid:1" == ":aa\nid:1";
    FeedReadsLines(SmallBudget, c, NewReader(sink), "", ":aa\nid:1\n");
    FeedReadsLines(SmallBudget, c, NewReader(sink), "", ":aa\nid:1");
  }

  /** An over-budget frame that declares its id blocks when it arrives whole and is retried when the chunk
      ends before the id line does. */
  lemma OverBudgetChunkingMatters(sink: Sink)
    ensures FeedAll(SmallBudget, NewReader(sink), [":aa\nid:1\n"]).state.verdict == Blocked(Some(1))
    ensures FeedAll(SmallBudget, NewReader(sink), [":aa\nid:1", "\n"]).state.verdict == Failed
    ensures Concat([":aa\nid:1\n"]) == Concat([":aa\nid:1", "\n"])
  {
    var whole, part := ":aa\nid:1\n", ":aa\nid:1";
    ExampleFeeds(sink);
    FeedAllFirst(SmallBudget, NewReader(sink), whole);
    RefusedAtOnce(SmallBudget, NewReader(sink), part, "\n");
    assert [part, "\n"][..1] == [part] && [whole][..0] == [] && [part][..0] == [];
  }
}

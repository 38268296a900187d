/**
 The durable event stream's reader (apps/vscode/src/eventStream.ts): the meaning of one line, the
 judgement of one frame, and the chunk loop with its cumulative byte budget. JSON, number and whitespace
 handling are parameters: every result holds for all of them.
 */
module SseReader {
  import opened Text
  import opened LineReader
  import opened SseFrames

  const HEARTBEAT := "heartbeat"

  /** What the dispatcher looks at in one parsed `data:` payload. */
  datatype Json = Malformed | NotObject | Object(event: Option<string>, supportedVersion: bool)

  datatype Config = Config(
    trim: string -> string,
    readId: string -> Option<nat>,
    readJson: string -> Json,
    maxFrameBytes: nat)

  type Reader = Intake<Core>

  function FreshCore(sink: Sink): (c: Core) { Core(FreshFrame, sink, Live) }

  function NewReader(sink: Sink): (r: Reader) { Intake(FreshCore(sink), "", 0) }

  // ---------------------------------------------------------------- one line

  function DropCr(raw: string): (line: string)
  {
    if raw != "" && raw[|raw| - 1] == '\r' then raw[..|raw| - 1] else raw
  }

  function Classify(cfg: Config, raw: string): (k: LineKind)
  {
    var line := DropCr(raw);
    if line == "" then Blank
    else if StartsWith(line, ":") then Comment
    else if StartsWith(line, "event:") then EventName(cfg.trim(line[6..]))
    else if StartsWith(line, "id:") then
      var rawId := cfg.trim(line[3..]);
      if |rawId| > 0 && cfg.readId(rawId).Some? then GoodId(cfg.readId(rawId).value) else BadId
    else if StartsWith(line, "data:") then
      Data(if StartsWith(line[5..], " ") then line[6..] else line[5..])
    else Other
  }

  lemma OtherPrefix(s: string, p: string)
    requires s != "" && p != "" && s[0] != p[0]
    ensures !StartsWith(s, p)
  {
    if |p| <= |s| {
      assert s[..|p|][0] == s[0];
    }
  }

  function Tokenize(cfg: Config, raw: string): (t: Token) { Token(Classify(cfg, raw), LineBytes(raw)) }

  function Tokens(cfg: Config, lines: seq<string>): (ts: seq<Token>)
    ensures |ts| == |lines|
  {
    seq(|lines|, i requires 0 <= i < |lines| => Tokenize(cfg, lines[i]))
  }

  // --------------------------------------------------------------- one frame

  /** A frame that declares an id is durable: whatever cannot be consumed there blocks. */
  function Judge(cfg: Config, f: Frame): (j: Judgement)
    ensures j.Offer? ==> f.id == Some(j.event.id) && j.event.tag != HEARTBEAT && j.event.raw == Join(f.data)
    ensures j.Block? ==> f.id.Some?
    ensures j.Report? ==> f.id.None?
  {
    var refusal := if f.id.Some? then Block else Report;
    if f.data == [] then (if f.id.Some? then Block else Ignore)
    else
      var raw := Join(f.data);
      match cfg.readJson(raw)
      case Malformed => refusal
      case NotObject => refusal
      case Object(declared, supported) =>
        var tagged := if declared.Some? then declared else f.name;
        if tagged.None? then refusal
        else if declared.Some? && f.name.Some? && f.name != declared then refusal
        else if tagged.value == HEARTBEAT then Ignore
        else if f.id.None? then Report
        else if !supported then Block
        else Offer(Event(f.id.value, tagged.value, raw))
  }

  function RulesOf(cfg: Config): (r: Rules) { Rules((f: Frame) => Judge(cfg, f), cfg.maxFrameBytes) }

  /** The payload's own tag and the frame's name say this tag: at least one does, and neither says another. */
  predicate Tagged(declared: Option<string>, name: Option<string>, tag: string)
  {
    (declared.Some? || name.Some?) && (declared.Some? ==> declared.value == tag) && (name.Some? ==> name.value == tag)
  }

  /** The payload is an object tagged heartbeat. */
  predicate Heartbeat(cfg: Config, f: Frame)
  {
    f.data != [] && cfg.readJson(Join(f.data)).Object? && Tagged(cfg.readJson(Join(f.data)).event, f.name, HEARTBEAT)
  }

  /** The frame spells out a journal event: its id, its payload, a tag that is no heartbeat, a supported version. */
  predicate Readable(cfg: Config, f: Frame, e: Event)
  {
    && f.id == Some(e.id) && f.data != [] && Join(f.data) == e.raw
    && cfg.readJson(e.raw).Object? && cfg.readJson(e.raw).supportedVersion
    && e.tag != HEARTBEAT && Tagged(cfg.readJson(e.raw).event, f.name, e.tag)
  }

  /** MAIN: a frame is offered as an event if and only if it spells that event out. Otherwise a frame with an id blocks
      and one without is reported, unless it is a heartbeat or has neither id nor data. */
  lemma JudgeIs(cfg: Config, f: Frame)
    ensures forall e :: Judge(cfg, f) == Offer(e) <==> Readable(cfg, f, e)
    ensures Judge(cfg, f).Ignore? <==> Heartbeat(cfg, f) || (f.data == [] && f.id.None?)
    ensures Judge(cfg, f).Block? <==> f.id.Some? && !Heartbeat(cfg, f) && forall e :: !Readable(cfg, f, e)
    ensures Judge(cfg, f).Report? <==> f.id.None? && !Heartbeat(cfg, f) && f.data != []
  {
    if Judge(cfg, f).Offer? {
      assert Readable(cfg, f, Judge(cfg, f).event);
    }
  }

  // --------------------------------------------------------------- one chunk

  function FrameReader(cfg: Config): (m: Consumer<Core>)
  {
    var rules := RulesOf(cfg);
    Consumer((c: Core, raw: string) => TokenStep(rules, c, Tokenize(cfg, raw)), (c: Core) => c.verdict.Live?)
  }

  /** The one-pass reading of a text. */
  function ReadAll(cfg: Config, c: Core, text: string): (d: Core)
  {
    ReadLines(FrameReader(cfg), c, Lines(text))
  }

  /** The frame in progress, unfinished line included, is past the budget. */
  predicate Over(cfg: Config, c: Core, pending: int)
  {
    c.verdict.Live? && c.frame.bytes + pending > cfg.maxFrameBytes
  }

  /** One decoded chunk of the response body: its complete lines, then the budget check on the rest. */
  ghost function Feed(cfg: Config, r: Reader, chunk: string): (q: Reader)
  {
    if chunk == "" then r
    else
      var d := Push(FrameReader(cfg), r, chunk);
      if Over(cfg, d.state, d.bytes) then d.(state := d.state.(verdict := Oversized(d.state.frame))) else d
  }

  /** A whole connection: chunks are read until one is refused. */
  ghost function FeedAll(cfg: Config, r: Reader, chunks: seq<string>): (q: Reader)
  {
    if chunks == [] then r
    else
      var p := FeedAll(cfg, r, chunks[..|chunks| - 1]);
      if p.state.verdict.Live? then Feed(cfg, p, chunks[|chunks| - 1]) else p
  }

  // ------------------------------------------------- chunking is invisible

  /** The reader stands where the one-pass reading of `text` from `c` stands. */
  ghost predicate Caught(cfg: Config, c: Core, r: Reader, text: string)
  {
    InStep(FrameReader(cfg), c, r, text)
  }

  /** At every character of the text the frame being read, unfinished line included, is within the budget. */
  ghost predicate InBudget(cfg: Config, c: Core, text: string)
  {
    forall k :: 0 <= k <= |text| ==> WithinAt(cfg, c, text[..k])
  }

  ghost predicate WithinAt(cfg: Config, c: Core, text: string)
  {
    !Over(cfg, ReadAll(cfg, c, text), ByteLen(Rest(text)))
  }

  /** One chunk either leaves the reader where the one-pass reading of everything received stands, or
      refuses that very state for its size; the second happens exactly when it is past the budget. */
  lemma {:induction false} FeedReadsLines(cfg: Config, c: Core, r: Reader, text: string, chunk: string)
    requires r.state.verdict.Live? && Caught(cfg, c, r, text) && chunk != ""
    ensures Counted(Feed(cfg, r, chunk))
    ensures WithinAt(cfg, c, text + chunk) ==> Caught(cfg, c, Feed(cfg, r, chunk), text + chunk)
    ensures !WithinAt(cfg, c, text + chunk) ==>
              var reference := ReadAll(cfg, c, text + chunk);
              Feed(cfg, r, chunk).state == reference.(verdict := Oversized(reference.frame))
  {
    PushReadsLines(FrameReader(cfg), c, r, text, chunk);
  }

  /** MAIN: within the budget, however the response body was cut into chunks, the reader does exactly
      what reading the whole text's lines in one pass does. */
  lemma {:induction false} ChunkingIsInvisible(cfg: Config, c: Core, chunks: seq<string>)
    requires c.verdict.Live? && InBudget(cfg, c, Concat(chunks))
    ensures Caught(cfg, c, FeedAll(cfg, Intake(c, "", 0), chunks), Concat(chunks))
  {
    if chunks != [] {
      var init, chunk := chunks[..|chunks| - 1], chunks[|chunks| - 1];
      var text := Concat(init);
      forall k | 0 <= k <= |text| ensures WithinAt(cfg, c, text[..k]) {
        assert Concat(chunks)[..k] == text[..k];
      }
      ChunkingIsInvisible(cfg, c, init);
      var p := FeedAll(cfg, Intake(c, "", 0), init);
      if chunk == "" {
        assert text + chunk == text;
      } else if p.state.verdict.Live? {
        assert WithinAt(cfg, c, text + chunk) by {
          assert Concat(chunks)[..|Concat(chunks)|] == text + chunk;
        }
        FeedReadsLines(cfg, c, p, text, chunk);
      } else {
        RefusedStaysRefused(cfg, c, text, chunk);
      }
    }
  }

  lemma {:induction false} RefusedStaysRefused(cfg: Config, c: Core, text: string, more: string)
    requires !ReadAll(cfg, c, text).verdict.Live?
    ensures ReadAll(cfg, c, text + more) == ReadAll(cfg, c, text)
  {
    var m := FrameReader(cfg);
    LinesConcat(text, more);
    ReadLinesConcat(m, c, Lines(text), Lines(Rest(text) + more));
    RefusalIsFinal(m, ReadAll(cfg, c, text), Lines(Rest(text) + more));
  }

  /** Two ways of cutting one in-budget text give one outcome. */
  lemma ChunkingsAgree(cfg: Config, c: Core, xs: seq<string>, ys: seq<string>)
    requires c.verdict.Live? && Concat(xs) == Concat(ys) && InBudget(cfg, c, Concat(xs))
    ensures FeedAll(cfg, Intake(c, "", 0), xs).state == FeedAll(cfg, Intake(c, "", 0), ys).state
  {
    ChunkingIsInvisible(cfg, c, xs);
    ChunkingIsInvisible(cfg, c, ys);
  }

  // ------------------------------------------------ the declarative meaning

  lemma {:induction false} LinesAsTokens(cfg: Config, c: Core, lines: seq<string>)
    ensures ReadLines(FrameReader(cfg), c, lines) == ReadTokens(RulesOf(cfg), c, Tokens(cfg, lines))
  {
    if lines != [] {
      var init := lines[..|lines| - 1];
      LinesAsTokens(cfg, c, init);
      assert Tokens(cfg, lines)[..|lines| - 1] == Tokens(cfg, init);
    }
  }

  /** MAIN: for every way of cutting an in-budget text into chunks, the dispatch calls are the complete
      frames of the text in order; a refusal stops them after some leading part of it. */
  lemma ChunksDispatchTheFrames(cfg: Config, sink: Sink, chunks: seq<string>) returns (k: nat)
    requires InBudget(cfg, FreshCore(sink), Concat(chunks))
    ensures k <= |Lines(Concat(chunks))|
    ensures var frames := Frames(Tokens(cfg, Lines(Concat(chunks)))[..k]);
            var q := FeedAll(cfg, NewReader(sink), chunks).state;
            && q.sink == DispatchAll(RulesOf(cfg), sink, frames)
            && q.sink.dispatched == sink.dispatched + frames
            && (q.verdict.Live? ==> k == |Lines(Concat(chunks))|)
  {
    var c := FreshCore(sink);
    ChunkingIsInvisible(cfg, c, chunks);
    LinesAsTokens(cfg, c, Lines(Concat(chunks)));
    var tokens := Tokens(cfg, Lines(Concat(chunks)));
    k := ReadingDispatchesFrames(RulesOf(cfg), [], c, tokens);
    assert [] + tokens[..k] == tokens[..k];
    DispatchLog(RulesOf(cfg), sink, Frames(tokens[..k]));
  }

  // ------------------------------------------------------ budget accounting

  /** What one data line retains is part of that line. */
  lemma TokenIsHonest(cfg: Config, raw: string)
    ensures Honest(Tokenize(cfg, raw))
  {
    if Classify(cfg, raw).Data? {
      var line := DropCr(raw);
      var text := Classify(cfg, raw).text;
      assert raw == line + raw[|line|..];
      ByteLenConcat(line, raw[|line|..]);
      assert line == line[..|line| - |text|] + text;
      ByteLenConcat(line[..|line| - |text|], text);
    }
  }

  lemma ReadingRetains(cfg: Config, c: Core, text: string)
    requires Retained(c.frame)
    ensures Retained(ReadAll(cfg, c, text).frame)
  {
    var lines := Lines(text);
    forall i | 0 <= i < |lines| ensures Honest(Tokens(cfg, lines)[i]) {
      TokenIsHonest(cfg, lines[i]);
    }
    LinesAsTokens(cfg, c, lines);
    RetainedWithinBytes(RulesOf(cfg), c, Tokens(cfg, lines));
  }

  /** MAIN: after every chunk of every connection, over budget or not, either the reader has refused or the
      frame in progress fits the budget; the byte count is the buffer's exact UTF-8 size and the retained
      data never exceeds what was counted. */
  lemma {:induction false} BudgetHolds(cfg: Config, sink: Sink, chunks: seq<string>)
    ensures var q := FeedAll(cfg, NewReader(sink), chunks);
            && Counted(q) && Retained(q.state.frame)
            && (q.state.verdict.Live? ==>
                  && q.state.frame.bytes + q.bytes <= cfg.maxFrameBytes
                  && Caught(cfg, FreshCore(sink), q, Concat(chunks)))
  {
    if chunks != [] {
      var init, chunk := chunks[..|chunks| - 1], chunks[|chunks| - 1];
      BudgetHolds(cfg, sink, init);
      var p := FeedAll(cfg, NewReader(sink), init);
      var c := FreshCore(sink);
      if chunk == "" {
        assert Concat(init) + chunk == Concat(init);
      } else if p.state.verdict.Live? {
        FeedReadsLines(cfg, c, p, Concat(init), chunk);
        ReadingRetains(cfg, c, Concat(chunks));
      }
    }
  }
}

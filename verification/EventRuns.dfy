/**
 Whole runs of the durable event stream (apps/vscode/src/eventStream.ts) against an abstract journal:
 connects, chunks cut anywhere, ends, stops, refusals and recoveries in any order, with any number of
 connections still being read.
 */
module EventRuns {
  import opened Text
  import opened LineReader
  import opened SseFrames
  import opened SseReader
  import opened EventStream

  // --------------------------------------------------------------- the server

  ghost predicate Increasing(journal: seq<Event>)
  {
    forall i, j :: 0 <= i < j < |journal| ==> journal[i].id < journal[j].id
  }

  /** How many journal rows are at or behind a cursor. */
  function Position(journal: seq<Event>, cursor: nat): (k: nat)
    ensures k <= |journal|
  {
    if journal == [] then 0
    else if journal[|journal| - 1].id <= cursor then |journal|
    else Position(journal[..|journal| - 1], cursor)
  }

  lemma {:induction false} PositionSplits(journal: seq<Event>, cursor: nat)
    requires Increasing(journal)
    ensures forall i :: 0 <= i < Position(journal, cursor) ==> journal[i].id <= cursor
    ensures forall i :: Position(journal, cursor) <= i < |journal| ==> journal[i].id > cursor
  {
    if journal != [] && journal[|journal| - 1].id > cursor {
      PositionSplits(journal[..|journal| - 1], cursor);
    }
  }

  /** A group of lines stands for a journal row if it declares an id, readable or not, and is no heartbeat. */
  predicate Durable(cfg: Config, group: seq<Token>)
  {
    Unreadable(group) || (FieldsOf(group).id.Some? && !Heartbeat(cfg, FieldsOf(group)))
  }

  /** The group spells out this event. */
  predicate Spells(cfg: Config, group: seq<Token>, e: Event)
  {
    !Unreadable(group) && Readable(cfg, FieldsOf(group), e)
  }

  /** How far into the journal the server is after one more group. A durable group that spells out no event may stand
      for the next row. */
  ghost function AfterGroup(cfg: Config, journal: seq<Event>, h: nat, group: seq<Token>): (n: nat)
  {
    if !Durable(cfg, group) || h >= |journal| then h
    else if (exists e :: Spells(cfg, group, e)) && !Spells(cfg, group, journal[h]) then h
    else h + 1
  }

  /** How far into the journal a connection has been served, starting from its first `p` rows. */
  ghost function Served(cfg: Config, journal: seq<Event>, p: nat, tokens: seq<Token>): (h: nat)
  {
    if tokens == [] then p
    else
      var init := tokens[..|tokens| - 1];
      var h := Served(cfg, journal, p, init);
      if tokens[|tokens| - 1].kind.Blank? then AfterGroup(cfg, journal, h, Pending(init)) else h
  }

  ghost predicate RowUpTo(journal: seq<Event>, e: Event, h: nat)
  {
    exists j :: 0 <= j <= h && j < |journal| && journal[j] == e
  }

  ghost predicate GroupInOrder(cfg: Config, journal: seq<Event>, h: nat, group: seq<Token>)
  {
    forall e :: Spells(cfg, group, e) ==> RowUpTo(journal, e, h)
  }

  /** The server's contract: a frame that spells out an event is a journal row, and no row is served before the
      ones in front of it, as they are or in a form the client cannot read. Replays, heartbeats, comments and
      malformed frames are unrestricted. */
  ghost predicate Faithful(cfg: Config, journal: seq<Event>, p: nat, tokens: seq<Token>)
  {
    tokens == [] ||
    (var init := tokens[..|tokens| - 1];
     && Faithful(cfg, journal, p, init)
     && (tokens[|tokens| - 1].kind.Blank? ==>
           GroupInOrder(cfg, journal, Served(cfg, journal, p, init), Pending(init))))
  }

  ghost predicate IdUpTo(journal: seq<Event>, id: Option<nat>, h: nat)
  {
    id.Some? ==> exists j :: 0 <= j <= h && j < |journal| && journal[j].id == id.value
  }

  /** What a server promises of the frames a client refuses: one that blocks, or is past the budget, and has an id
      names a row no later than the next one. */
  ghost predicate Orderly(cfg: Config, journal: seq<Event>, p: nat, tokens: seq<Token>)
  {
    tokens == [] ||
    (var init := tokens[..|tokens| - 1];
     var h := Served(cfg, journal, p, init);
     && Orderly(cfg, journal, p, init)
     && if tokens[|tokens| - 1].kind.Blank? then
          Durable(cfg, Pending(init)) && (forall e :: !Spells(cfg, Pending(init), e)) ==>
            IdUpTo(journal, FieldsOf(Pending(init)).id, h)
        else
          FieldsOf(Pending(tokens)).bytes > cfg.maxFrameBytes ==> IdUpTo(journal, FieldsOf(Pending(tokens)).id, h))
  }

  // --------------------------------------------------------------- the client

  /** One connection: where it resumed, everything received, and its reading state. */
  datatype Conn = Conn(after: nat, received: string, frame: Frame, buffer: string, bytes: int,
                       open: bool, aborted: bool)

  datatype System = System(sink: Sink, stopped: bool, blocked: Option<ProtocolBlocked>, conns: seq<Conn>)

  datatype Step = Start | Stop | Recover | Connect | Reject(retryable: bool) | Chunk(i: nat, text: string) | End(i: nat)

  function Initial(cursor: nat): (s: System) { System(Sink(cursor, [], [], 0), true, None, []) }

  function Abort(conns: seq<Conn>): (cs: seq<Conn>)
    ensures |cs| == |conns|
  {
    seq(|conns|, i requires 0 <= i < |conns| => conns[i].(aborted := true))
  }

  function Started(s: System): (t: System)
  {
    if s.stopped then s.(stopped := false, blocked := None) else s
  }

  ghost function Next(cfg: Config, s: System, step: Step): (t: System)
  {
    match step
    case Start => Started(s)
    case Stop => if s.stopped then s else s.(stopped := true, conns := Abort(s.conns))
    case Recover => if s.blocked.None? then s else Started(s)
    case Connect =>
      if s.stopped then s
      else s.(conns := s.conns + [Conn(s.sink.cursor, "", FreshFrame, "", 0, true, false)])
    case Reject(retryable) =>
      if s.stopped || retryable then s
      else s.(stopped := true, blocked := Some(ProtocolBlocked(s.sink.cursor, None)))
    case Chunk(i, text) =>
      if i >= |s.conns| || !s.conns[i].open then s else Received(cfg, s, i, text)
    case End(i) =>
      if i >= |s.conns| then s else s.(conns := s.conns[i := s.conns[i].(open := false)])
  }

  ghost function ReaderOf(s: System, c: Conn): (r: Reader)
  {
    Intake(Core(c.frame, s.sink, Live), c.buffer, c.bytes)
  }

  ghost function Received(cfg: Config, s: System, i: nat, text: string): (t: System)
    requires i < |s.conns|
  {
    var c := s.conns[i];
    var r := Feed(cfg, ReaderOf(s, c), text);
    var v := r.state.verdict;
    var c' := c.(received := c.received + text, frame := r.state.frame, buffer := r.buffer, bytes := r.bytes,
                 open := v.Live?);
    System(r.state.sink,
           s.stopped || (v.Blocked? && !c.aborted),
           if v.Blocked? then Some(ProtocolBlocked(r.state.sink.cursor, v.offending)) else s.blocked,
           s.conns[i := c'])
  }

  ghost function Run(cfg: Config, s: System, steps: seq<Step>): (t: System)
  {
    if steps == [] then s else Next(cfg, Run(cfg, s, steps[..|steps| - 1]), steps[|steps| - 1])
  }

  /** The verdict of a chunk that arrives on an open connection. */
  ghost function VerdictOf(cfg: Config, s: System, step: Step): (v: Verdict)
  {
    if step.Chunk? && step.i < |s.conns| && s.conns[step.i].open
    then Feed(cfg, ReaderOf(s, s.conns[step.i]), step.text).state.verdict else Live
  }

  /** When the stream is stopped: by a stop, a rejection that a retry cannot cure, or a block on a connection that was
      not aborted; and until a start, or a recovery from a block. */
  lemma StoppedIff(cfg: Config, s: System, step: Step)
    ensures Next(cfg, s, step).stopped <==>
              || step.Stop? || step == Reject(false)
              || (VerdictOf(cfg, s, step).Blocked? && !s.conns[step.i].aborted)
              || (s.stopped && !step.Start? && !(step.Recover? && s.blocked.Some?))
  {
    hide Feed;
  }

  /** When and how it is blocked: a rejection names no frame, a frame's block what its reading names; a start of a
      stopped stream clears it. */
  lemma BlockedIs(cfg: Config, s: System, step: Step)
    ensures var t := Next(cfg, s, step);
            t.blocked ==
              if step == Reject(false) && !s.stopped then Some(ProtocolBlocked(s.sink.cursor, None))
              else if VerdictOf(cfg, s, step).Blocked? then
                Some(ProtocolBlocked(t.sink.cursor, VerdictOf(cfg, s, step).offending))
              else if s.stopped && (step.Start? || step.Recover?) then None
              else s.blocked
  {
    hide Feed;
  }

  /** Connections open only while the stream runs, and are never forgotten; a stop aborts them all. */
  lemma ConnectionsOpen(cfg: Config, s: System, step: Step)
    ensures var t := Next(cfg, s, step);
            && |t.conns| == |s.conns| + (if step.Connect? && !s.stopped then 1 else 0)
            && (step.Stop? && !s.stopped ==> forall i :: 0 <= i < |t.conns| ==> t.conns[i].aborted)
            && (forall i :: 0 <= i < |s.conns| && s.conns[i].aborted ==> t.conns[i].aborted)
  {
    hide Feed;
  }

  /** An ended connection is closed, and what arrives on a closed one changes nothing. */
  lemma EndedIsClosed(cfg: Config, s: System, i: nat, text: string)
    requires i < |s.conns|
    ensures var t := Next(cfg, s, End(i));
            !t.conns[i].open && t.sink == s.sink && Next(cfg, t, Chunk(i, text)) == t
  {
    hide Feed;
  }

  /** MAIN: a stopped stream stays stopped and opens no connection, whatever still arrives, until it is started or
      recovered. */
  lemma {:induction false} StoppedStaysStopped(cfg: Config, s: System, steps: seq<Step>)
    requires s.stopped && forall i :: 0 <= i < |steps| ==> !steps[i].Start? && !steps[i].Recover?
    ensures Run(cfg, s, steps).stopped && |Run(cfg, s, steps).conns| == |s.conns|
  {
    hide Next;
    if steps != [] {
      var init, step := steps[..|steps| - 1], steps[|steps| - 1];
      StoppedStaysStopped(cfg, s, init);
      StoppedIff(cfg, Run(cfg, s, init), step);
      ConnectionsOpen(cfg, Run(cfg, s, init), step);
    }
  }

  // -------------------------------------------------------------- invariants

  function TokensReceived(cfg: Config, c: Conn): (ts: seq<Token>) { Tokens(cfg, Lines(c.received)) }

  /** An open connection's reading state is the meaning of everything it received. */
  ghost predicate Consistent(cfg: Config, c: Conn)
  {
    c.open ==>
      && c.frame == FieldsOf(Pending(TokensReceived(cfg, c)))
      && !Unreadable(Pending(TokensReceived(cfg, c)))
      && c.buffer == Rest(c.received)
      && c.bytes == ByteLen(c.buffer)
  }

  ghost predicate ServedFaithfully(cfg: Config, journal: seq<Event>, c: Conn)
  {
    Faithful(cfg, journal, Position(journal, c.after), TokensReceived(cfg, c))
  }

  /** How far into the journal a connection has been served. */
  ghost function ServedTo(cfg: Config, journal: seq<Event>, c: Conn): (h: nat)
  {
    Served(cfg, journal, Position(journal, c.after), TokensReceived(cfg, c))
  }

  /** The same of a frame that is past the budget with its line unfinished. */
  ghost predicate ServedOrderly(cfg: Config, journal: seq<Event>, c: Conn)
  {
    var f := FieldsOf(Pending(TokensReceived(cfg, c)));
    && Orderly(cfg, journal, Position(journal, c.after), TokensReceived(cfg, c))
    && (f.bytes + ByteLen(Rest(c.received)) > cfg.maxFrameBytes ==> IdUpTo(journal, f.id, ServedTo(cfg, journal, c)))
  }

  ghost predicate FaithfulServer(cfg: Config, journal: seq<Event>, s: System)
  {
    forall i :: 0 <= i < |s.conns| ==> ServedFaithfully(cfg, journal, s.conns[i])
  }

  /** The server keeps its contract throughout the run. */
  ghost predicate FaithfulRun(cfg: Config, journal: seq<Event>, s: System, steps: seq<Step>)
  {
    && FaithfulServer(cfg, journal, Run(cfg, s, steps))
    && (steps != [] ==> FaithfulRun(cfg, journal, s, steps[..|steps| - 1]))
  }

  /** The deliveries are exactly the journal rows from `from` up to `k`, and the cursor is the last one. */
  ghost predicate DeliveredRange(journal: seq<Event>, from: nat, start: nat, sink: Sink, k: nat)
  {
    && from <= k <= |journal|
    && sink.delivered == journal[from..k]
    && sink.cursor == (if k == from then start else journal[k - 1].id)
    && Position(journal, sink.cursor) == k
  }

  /** No connection has been served past what was delivered. */
  ghost predicate NoneLost(cfg: Config, journal: seq<Event>, c: Conn, k: nat)
  {
    c.open ==> ServedTo(cfg, journal, c) <= k
  }

  ghost predicate Inv(cfg: Config, journal: seq<Event>, start: nat, s: System)
  {
    var k := Position(journal, s.sink.cursor);
    && DeliveredRange(journal, Position(journal, start), start, s.sink, k)
    && forall i :: 0 <= i < |s.conns| ==>
         Consistent(cfg, s.conns[i]) && NoneLost(cfg, journal, s.conns[i], k)
  }

  // ------------------------------------------------------------------ proofs

  lemma PositionIs(journal: seq<Event>, cursor: nat, k: nat)
    requires Increasing(journal) && k <= |journal|
    requires forall i :: 0 <= i < k ==> journal[i].id <= cursor
    requires forall i :: k <= i < |journal| ==> journal[i].id > cursor
    ensures Position(journal, cursor) == k
  {
    PositionSplits(journal, cursor);
  }

  /** Accepting a row no later than the next one keeps the delivered rows contiguous, and delivers the next one. */
  lemma AcceptKeepsRange(journal: seq<Event>, from: nat, start: nat, sink: Sink, k: nat, e: Event, h: nat)
    returns (k': nat)
    requires Increasing(journal) && DeliveredRange(journal, from, start, sink, k) && h <= k && RowUpTo(journal, e, h)
    ensures k <= k' && DeliveredRange(journal, from, start, Accept(sink, e), k')
    ensures h < |journal| && e == journal[h] ==> h < k'
  {
    hide Position;
    k' := k;
    PositionSplits(journal, sink.cursor);
    var n :| 0 <= n <= h && n < |journal| && journal[n] == e;
    if n == k {
      k' := k + 1;
      PositionIs(journal, journal[k].id, k + 1);
      assert journal[from..k] + [journal[k]] == journal[from..k + 1];
    } else {
      assert journal[n].id <= sink.cursor;
      assert h < |journal| ==> (journal[n] == journal[h] ==> n == h);
    }
  }

  /** The dispatch log is not part of the deliveries. */
  lemma RangeIgnoresLog(journal: seq<Event>, from: nat, start: nat, sink: Sink, sink': Sink, k: nat)
    requires DeliveredRange(journal, from, start, sink, k)
    requires sink'.cursor == sink.cursor && sink'.delivered == sink.delivered
    ensures DeliveredRange(journal, from, start, sink', k)
  {
  }

  /** Dispatching one faithfully served group keeps the delivered rows contiguous and, unless it blocks, leaves no
      served row behind. */
  lemma DispatchKeepsRange(cfg: Config, journal: seq<Event>, from: nat, start: nat, sink: Sink, k: nat,
                           group: seq<Token>, h: nat) returns (k': nat)
    requires Increasing(journal) && DeliveredRange(journal, from, start, sink, k) && h <= k
    requires !Unreadable(group) && GroupInOrder(cfg, journal, h, group)
    ensures k <= k' && DeliveredRange(journal, from, start, Dispatch(RulesOf(cfg), sink, FieldsOf(group)), k')
    ensures if Judge(cfg, FieldsOf(group)).Block? then k' == k else AfterGroup(cfg, journal, h, group) <= k'
  {
    hide Judge, Heartbeat, Readable, FieldsOf, DeliveredRange, Accept, RowUpTo;
    var f := FieldsOf(group);
    var j := Judge(cfg, f);
    var logged := sink.(dispatched := sink.dispatched + [f]);
    JudgeIs(cfg, f);
    if j.Offer? {
      assert Spells(cfg, group, j.event);
      RangeIgnoresLog(journal, from, start, sink, logged, k);
      k' := AcceptKeepsRange(journal, from, start, logged, k, j.event, h);
    } else {
      k' := k;
      RangeIgnoresLog(journal, from, start, sink, Dispatch(RulesOf(cfg), sink, f), k);
    }
  }

  /** A reading state in step with the lines `tokens` and with the journal up to row `k`. */
  ghost predicate Abreast(cfg: Config, journal: seq<Event>, p: nat, tokens: seq<Token>, c: Core, k: nat)
  {
    && c.frame == FieldsOf(Pending(tokens)) && !Unreadable(Pending(tokens))
    && Served(cfg, journal, p, tokens) <= k
  }

  /** An id the reading was refused for names a row no later than `k`. */
  ghost predicate Named(journal: seq<Event>, v: Verdict, k: nat)
  {
    v.Blocked? ==> IdUpTo(journal, v.offending, k)
  }

  /** One line keeps the reading abreast of the journal, or refuses it with every row before still delivered. */
  lemma LineKeepsRange(cfg: Config, journal: seq<Event>, from: nat, start: nat, p: nat, tokens: seq<Token>, c: Core,
                       t: Token, k: nat) returns (k': nat)
    requires Increasing(journal) && DeliveredRange(journal, from, start, c.sink, k)
    requires c.verdict.Live? && Abreast(cfg, journal, p, tokens, c, k)
    requires Faithful(cfg, journal, p, tokens + [t])
    ensures var d := TokenStep(RulesOf(cfg), c, t);
            && k <= k' && DeliveredRange(journal, from, start, d.sink, k')
            && (d.verdict.Live? ==> Abreast(cfg, journal, p, tokens + [t], d, k'))
            && (Orderly(cfg, journal, p, tokens + [t]) ==> Named(journal, d.verdict, k'))
  {
    hide Judge, FieldsOf, Absorb, AfterGroup, DeliveredRange, GroupInOrder, Dispatch, Heartbeat, Readable;
    var all := tokens + [t];
    assert all[..|all| - 1] == tokens;
    if t.kind.Blank? {
      EmptyGroup();
      JudgeIs(cfg, FieldsOf(Pending(tokens)));
      k' := DispatchKeepsRange(cfg, journal, from, start, c.sink, k, Pending(tokens), Served(cfg, journal, p, tokens));
    } else {
      k' := k;
      assert Pending(all) == Pending(tokens) + [t];
      AbsorbExtendsGroup(Pending(tokens), t);
    }
  }

  /** Reading more lines keeps the reading abreast of the journal until it is refused. */
  lemma {:induction false} ReadingKeepsRange(cfg: Config, journal: seq<Event>, from: nat, start: nat, p: nat,
                                             seen: seq<Token>, c: Core, more: seq<Token>, k: nat) returns (k': nat)
    requires Increasing(journal) && DeliveredRange(journal, from, start, c.sink, k)
    requires c.verdict.Live? && Abreast(cfg, journal, p, seen, c, k)
    requires Faithful(cfg, journal, p, seen + more)
    ensures var d := ReadTokens(RulesOf(cfg), c, more);
            && k <= k' && DeliveredRange(journal, from, start, d.sink, k')
            && (d.verdict.Live? ==> Abreast(cfg, journal, p, seen + more, d, k'))
            && (Orderly(cfg, journal, p, seen + more) ==> Named(journal, d.verdict, k'))
  {
    hide TokenStep, Abreast, DeliveredRange, Named, RulesOf;
    if more == [] {
      k' := k;
      assert seen + more == seen;
      assert Named(journal, c.verdict, k) by { LiveIsNamed(journal, c.verdict, k); }
    } else {
      var init, t := more[..|more| - 1], more[|more| - 1];
      assert (seen + more)[..|seen + more| - 1] == seen + init && (seen + init) + [t] == seen + more;
      k' := ReadingKeepsRange(cfg, journal, from, start, p, seen, c, init, k);
      var d := ReadTokens(RulesOf(cfg), c, init);
      if d.verdict.Live? {
        k' := LineKeepsRange(cfg, journal, from, start, p, seen + init, d, t, k');
      }
    }
  }

  lemma LiveIsNamed(journal: seq<Event>, v: Verdict, k: nat)
    requires v.Live?
    ensures Named(journal, v, k)
  {
  }

  lemma TokensConcat(cfg: Config, a: seq<string>, b: seq<string>)
    ensures Tokens(cfg, a + b) == Tokens(cfg, a) + Tokens(cfg, b)
  {
  }

  /** The lines a chunk completes on a connection. */
  function LinesOf(cfg: Config, c: Conn, text: string): (ts: seq<Token>) { Tokens(cfg, Lines(c.buffer + text)) }

  /** A chunk is read as the lines it completes, from where everything received so far stands. */
  lemma {:induction false} ChunkReads(cfg: Config, s: System, c: Conn, text: string)
    requires c.open && Consistent(cfg, c) && text != ""
    ensures var r := Feed(cfg, ReaderOf(s, c), text);
            var d := ReadTokens(RulesOf(cfg), Core(c.frame, s.sink, Live), LinesOf(cfg, c, text));
            var whole := c.received + text;
            && Tokens(cfg, Lines(whole)) == TokensReceived(cfg, c) + LinesOf(cfg, c, text)
            && r.state.sink == d.sink && r.state.frame == d.frame
            && (r.state.verdict.Live? ==>
                  d.verdict.Live? && r.buffer == Rest(whole) && r.bytes == ByteLen(r.buffer))
            && (r.state.verdict == d.verdict ||
                (&& d.verdict.Live? && r.state.verdict == Oversized(d.frame)
                 && d.frame.bytes + ByteLen(Rest(whole)) > cfg.maxFrameBytes))
  {
    hide Judge, Classify, Feed, ReadLines, Lines, Rest, ByteLen;
    var core := Core(c.frame, s.sink, Live);
    BufferInStep(cfg, core, c);
    FeedReadsLines(cfg, core, ReaderOf(s, c), c.buffer, text);
    LinesConcat(c.received, text);
    TokensConcat(cfg, Lines(c.received), Lines(c.buffer + text));
    LinesAsTokens(cfg, core, Lines(c.buffer + text));
    FeedVerdict(cfg, core, ReaderOf(s, c), c.buffer, text);
  }

  /** What one chunk does to the sink, in terms of the frames received. */
  lemma {:induction false} ChunkDispatches(cfg: Config, s: System, c: Conn, text: string) returns (more: seq<Frame>)
    requires c.open && Consistent(cfg, c)
    ensures var r := Feed(cfg, ReaderOf(s, c), text);
            var before, after := Frames(TokensReceived(cfg, c)), Frames(Tokens(cfg, Lines(c.received + text)));
            && r.state.sink == DispatchAll(RulesOf(cfg), s.sink, more)
            && before + more <= after && (r.state.verdict.Live? ==> before + more == after)
  {
    hide Judge, Feed, Lines, Rest, ByteLen, Frames, Pending, FieldsOf, DispatchAll, LinesOf, Tokens, RulesOf,
         Unreadable;
    var seen := TokensReceived(cfg, c);
    if text == "" {
      more := [];
      assert c.received + text == c.received;
      EmptyChunk(cfg, s, c);
    } else {
      ChunkReads(cfg, s, c, text);
      var core, tokens := Core(c.frame, s.sink, Live), LinesOf(cfg, c, text);
      var k := ReadingDispatchesFrames(RulesOf(cfg), seen, core, tokens);
      more := NewFrames(seen, tokens[..k]);
      FramesGrow(seen + tokens, |seen| + k);
      assert (seen + tokens)[..|seen| + k] == seen + tokens[..k];
      assert tokens[..|tokens|] == tokens;
    }
  }

  lemma EmptyChunk(cfg: Config, s: System, c: Conn)
    requires c.open && Consistent(cfg, c)
    ensures Feed(cfg, ReaderOf(s, c), "") == ReaderOf(s, c)
    ensures DispatchAll(RulesOf(cfg), s.sink, []) == s.sink
    ensures Frames(TokensReceived(cfg, c)) + [] == Frames(TokensReceived(cfg, c))
  {
  }

  lemma BufferInStep(cfg: Config, core: Core, c: Conn)
    requires c.open && Consistent(cfg, c) && core.verdict.Live?
    ensures Caught(cfg, core, Intake(core, c.buffer, c.bytes), c.buffer)
  {
    NoNewline(c.buffer);
  }

  lemma FeedVerdict(cfg: Config, core: Core, r: Reader, text: string, chunk: string)
    requires r.state.verdict.Live? && Caught(cfg, core, r, text) && chunk != ""
    ensures var q := Feed(cfg, r, chunk);
            var d := ReadAll(cfg, core, text + chunk);
            && q.state.sink == d.sink && q.state.frame == d.frame
            && (q.state.verdict.Live? ==>
                  d.verdict.Live? && q.buffer == Rest(text + chunk) && q.bytes == ByteLen(q.buffer))
            && (q.state.verdict == d.verdict ||
                (&& d.verdict.Live? && q.state.verdict == Oversized(d.frame)
                 && d.frame.bytes + ByteLen(Rest(text + chunk)) > cfg.maxFrameBytes))
  {
    FeedReadsLines(cfg, core, r, text, chunk);
  }

  /** One chunk of one connection, whatever it holds, in terms of that connection. */
  lemma ConnKeeps(cfg: Config, journal: seq<Event>, from: nat, start: nat, s: System, i: nat, text: string, k: nat)
    returns (k': nat)
    requires Increasing(journal) && DeliveredRange(journal, from, start, s.sink, k)
    requires i < |s.conns| && s.conns[i].open && Consistent(cfg, s.conns[i]) && NoneLost(cfg, journal, s.conns[i], k)
    requires ServedFaithfully(cfg, journal, Received(cfg, s, i, text).conns[i])
    ensures var t := Received(cfg, s, i, text);
            var v := Feed(cfg, ReaderOf(s, s.conns[i]), text).state.verdict;
            && k <= k' && DeliveredRange(journal, from, start, t.sink, k')
            && Consistent(cfg, t.conns[i]) && NoneLost(cfg, journal, t.conns[i], k')
            && (ServedOrderly(cfg, journal, t.conns[i]) ==> Named(journal, v, k'))
  {
    hide RulesOf, Feed, Tokens, Served, Faithful, Orderly, ReadTokens, ByteLen, Lines, Rest, Pending, FieldsOf,
         Position, DeliveredRange, Unreadable, LinesOf, IdUpTo;
    var c := s.conns[i];
    if text == "" {
      k' := k;
      assert c.received + text == c.received;
      EmptyChunk(cfg, s, c);
    } else {
      ChunkReads(cfg, s, c, text);
      var core := Core(c.frame, s.sink, Live);
      k' := ReadingKeepsRange(cfg, journal, from, start, Position(journal, c.after), TokensReceived(cfg, c), core,
                              LinesOf(cfg, c, text), k);
      var d := ReadTokens(RulesOf(cfg), core, LinesOf(cfg, c, text));
      IdUpToLater(journal, d.frame.id, ServedTo(cfg, journal, Received(cfg, s, i, text).conns[i]), k');
    }
  }

  lemma IdUpToLater(journal: seq<Event>, id: Option<nat>, h: nat, k: nat)
    ensures IdUpTo(journal, id, h) && h <= k ==> IdUpTo(journal, id, k)
    ensures IdUpTo(journal, None, k)
  {
  }

  /** One chunk of one connection, whatever it holds. */
  lemma ChunkKeeps(cfg: Config, journal: seq<Event>, start: nat, s: System, i: nat, text: string)
    requires Increasing(journal) && Inv(cfg, journal, start, s)
    requires i < |s.conns| && s.conns[i].open
    requires ServedFaithfully(cfg, journal, Received(cfg, s, i, text).conns[i])
    ensures Inv(cfg, journal, start, Received(cfg, s, i, text))
    ensures s.sink.cursor <= Received(cfg, s, i, text).sink.cursor
  {
    hide Feed, ServedTo, Consistent, Position, Received;
    var t, k := Received(cfg, s, i, text), Position(journal, s.sink.cursor);
    OthersUntouched(cfg, s, i, text);
    var k' := ConnKeeps(cfg, journal, Position(journal, start), start, s, i, text, k);
    CursorGrows(journal, s.sink.cursor, t.sink.cursor);
    forall n | 0 <= n < |t.conns|
      ensures Consistent(cfg, t.conns[n]) && NoneLost(cfg, journal, t.conns[n], k')
    {
      if n != i {
        assert t.conns[n] == s.conns[n];
      }
    }
  }

  lemma OthersUntouched(cfg: Config, s: System, i: nat, text: string)
    requires i < |s.conns|
    ensures var t := Received(cfg, s, i, text);
            |t.conns| == |s.conns| && forall n :: 0 <= n < |s.conns| && n != i ==> t.conns[n] == s.conns[n]
  {
    hide Feed;
  }

  lemma CursorGrows(journal: seq<Event>, a: nat, b: nat)
    requires Increasing(journal) && Position(journal, a) <= Position(journal, b)
    requires Position(journal, b) > Position(journal, a) || a == b
    ensures a <= b
  {
    PositionSplits(journal, a);
    PositionSplits(journal, b);
    if a != b {
      assert journal[Position(journal, a)].id > a;
    }
  }

  /** A connection just opened has been served nothing beyond its resume cursor. */
  lemma ConnectKeeps(cfg: Config, journal: seq<Event>, start: nat, s: System)
    requires Inv(cfg, journal, start, s)
    ensures Inv(cfg, journal, start, Next(cfg, s, Connect))
  {
    var t := Next(cfg, s, Connect);
    var k := Position(journal, s.sink.cursor);
    forall n | 0 <= n < |t.conns|
      ensures Consistent(cfg, t.conns[n]) && NoneLost(cfg, journal, t.conns[n], k)
    {
      if n < |s.conns| {
        assert t.conns[n] == s.conns[n];
      } else {
        assert Tokens(cfg, Lines("")) == [];
      }
    }
  }

  /** Ending or aborting a connection changes no reading state. */
  lemma EndKeeps(cfg: Config, journal: seq<Event>, start: nat, s: System, t: System)
    requires Inv(cfg, journal, start, s) && t.sink == s.sink && |t.conns| == |s.conns|
    requires forall n :: 0 <= n < |s.conns| ==>
               t.conns[n] == s.conns[n].(open := t.conns[n].open, aborted := t.conns[n].aborted)
               && (t.conns[n].open ==> s.conns[n].open)
    ensures Inv(cfg, journal, start, t)
  {
    var k := Position(journal, s.sink.cursor);
    forall n | 0 <= n < |t.conns|
      ensures Consistent(cfg, t.conns[n]) && NoneLost(cfg, journal, t.conns[n], k)
    {
      assert Consistent(cfg, s.conns[n]) && NoneLost(cfg, journal, s.conns[n], k);
    }
  }

  lemma StepKeeps(cfg: Config, journal: seq<Event>, start: nat, s: System, step: Step)
    requires Increasing(journal) && Inv(cfg, journal, start, s)
    requires FaithfulServer(cfg, journal, Next(cfg, s, step))
    ensures Inv(cfg, journal, start, Next(cfg, s, step))
    ensures s.sink.cursor <= Next(cfg, s, step).sink.cursor
  {
    hide Inv, Received, Feed;
    match step
    case Connect => ConnectKeeps(cfg, journal, start, s);
    case Chunk(i, text) =>
      if i < |s.conns| && s.conns[i].open {
        var t := Received(cfg, s, i, text);
        assert |t.conns| == |s.conns| by { ReceivedShape(cfg, s, i, text); }
        assert ServedFaithfully(cfg, journal, t.conns[i]);
        ChunkKeeps(cfg, journal, start, s, i, text);
      }
    case _ =>
      EndKeeps(cfg, journal, start, s, Next(cfg, s, step));
  }

  lemma ReceivedShape(cfg: Config, s: System, i: nat, text: string)
    requires i < |s.conns|
    ensures |Received(cfg, s, i, text).conns| == |s.conns|
  {
  }

  lemma InitialInv(cfg: Config, journal: seq<Event>, start: nat)
    ensures Inv(cfg, journal, start, Initial(start))
  {
  }

  /** MAIN: over every run against a faithful server, the `onEvent` calls are exactly the journal rows after
      the starting cursor, in order, without gap or duplicate; the cursor is the last delivered row; and no
      row that an open connection has received completely is missing. */
  lemma {:induction false} DeliversTheJournal(cfg: Config, journal: seq<Event>, start: nat, steps: seq<Step>)
    requires Increasing(journal) && FaithfulRun(cfg, journal, Initial(start), steps)
    ensures var s := Run(cfg, Initial(start), steps);
            Inv(cfg, journal, start, s)
    ensures var s := Run(cfg, Initial(start), steps);
            var from, k := Position(journal, start), Position(journal, s.sink.cursor);
            && s.sink.delivered == journal[from..k]
            && s.sink.cursor == (if k == from then start else journal[k - 1].id)
  {
    if steps == [] {
      InitialInv(cfg, journal, start);
    } else {
      DeliversTheJournal(cfg, journal, start, steps[..|steps| - 1]);
      StepKeeps(cfg, journal, start, Run(cfg, Initial(start), steps[..|steps| - 1]), steps[|steps| - 1]);
    }
  }

  ghost predicate NoChunk(steps: seq<Step>)
  {
    forall i :: 0 <= i < |steps| ==> !steps[i].Chunk?
  }

  /** Whatever happens, the block in force was recorded at or behind the cursor. */
  lemma {:induction false} BlockIsBehindCursor(cfg: Config, journal: seq<Event>, start: nat, steps: seq<Step>)
    requires Increasing(journal) && FaithfulRun(cfg, journal, Initial(start), steps)
    ensures var s := Run(cfg, Initial(start), steps);
            s.blocked.Some? ==> s.blocked.value.cursor <= s.sink.cursor
  {
    hide Feed, Inv, FaithfulServer;
    if steps != [] {
      var init := steps[..|steps| - 1];
      BlockIsBehindCursor(cfg, journal, start, init);
      DeliversTheJournal(cfg, journal, start, init);
      StepKeeps(cfg, journal, start, Run(cfg, Initial(start), init), steps[|steps| - 1]);
    }
  }

  /** Until a chunk arrives, nothing moves the cursor away from the block's. */
  lemma {:induction false} QuietRunKeeps(cfg: Config, s: System, later: seq<Step>)
    requires NoChunk(later) && (s.blocked.Some? ==> s.blocked.value.cursor == s.sink.cursor)
    ensures var t := Run(cfg, s, later);
            && t.sink == s.sink
            && (t.blocked.Some? ==>
                  && t.blocked.value.cursor == t.sink.cursor
                  && (t.blocked == s.blocked || t.blocked.value.offending.None?))
  {
    hide Received;
    if later != [] {
      QuietRunKeeps(cfg, s, later[..|later| - 1]);
      assert !later[|later| - 1].Chunk?;
    }
  }

  /** The step blocks the stream. */
  ghost predicate BlocksAt(cfg: Config, s: System, step: Step)
  {
    s.blocked.None? && Next(cfg, s, step).blocked.Some?
  }

  /** The offending sequence of a block, if it is beyond the cursor, is the first row not delivered yet. */
  ghost predicate OffendingIsNext(journal: seq<Event>, b: ProtocolBlocked, k: nat)
  {
    b.offending.Some? && b.offending.value > b.cursor ==> k < |journal| && b.offending.value == journal[k].id
  }

  /** The server is orderly about what it just sent. */
  ghost predicate OrderlyStep(cfg: Config, journal: seq<Event>, s: System, step: Step)
  {
    step.Chunk? && step.i < |s.conns| ==> ServedOrderly(cfg, journal, s.conns[step.i])
  }

  /** MAIN: after a step of any run has blocked the stream, and whatever happens until the next chunk, the block names
      the cursor, recovering and connecting resumes at it, it is the last row delivered, and the rows this asks the
      server for are exactly the ones not delivered. An offending sequence beyond the cursor is the first of them. */
  lemma {:induction false} BlockedRunResumes(cfg: Config, journal: seq<Event>, start: nat,
                                             steps: seq<Step>, step: Step, later: seq<Step>)
    requires Increasing(journal) && FaithfulRun(cfg, journal, Initial(start), steps + [step]) && NoChunk(later)
    requires BlocksAt(cfg, Run(cfg, Initial(start), steps), step)
    requires Run(cfg, Run(cfg, Initial(start), steps + [step]), later).blocked.Some?
    ensures var s := Run(cfg, Initial(start), steps + [step]);
            var t := Run(cfg, s, later);
            var u := Next(cfg, Next(cfg, t, Recover), Connect);
            var cursor, from, k := t.sink.cursor, Position(journal, start), Position(journal, t.sink.cursor);
            && t.blocked.value.cursor == cursor
            && !u.stopped && u.sink == t.sink && (t.stopped ==> u.blocked.None?)
            && u.conns == t.conns + [Conn(cursor, "", FreshFrame, "", 0, true, false)]
            && from <= k && t.sink.delivered == journal[from..k]
            && cursor == (if k == from then start else journal[k - 1].id)
            && (forall j :: 0 <= j < |journal| ==> (journal[j].id > cursor <==> j >= k))
            && (OrderlyStep(cfg, journal, s, step) ==> OffendingIsNext(journal, t.blocked.value, k))
  {
    hide Run, Next, Inv, FaithfulServer, Position, OrderlyStep;
    var before := Run(cfg, Initial(start), steps);
    var s := Run(cfg, Initial(start), steps + [step]);
    assert (steps + [step])[..|steps|] == steps;
    assert s == Next(cfg, before, step) by { RunNext(cfg, Initial(start), steps, step); }
    DeliversTheJournal(cfg, journal, start, steps);
    BlockAtCursor(cfg, journal, start, before, step);
    QuietRunKeeps(cfg, s, later);
    RecoverConnects(cfg, Run(cfg, s, later));
    DeliversTheJournal(cfg, journal, start, steps + [step]);
    RangeIsForward(cfg, journal, start, s);
    PositionSplits(journal, s.sink.cursor);
  }

  /** A step that blocks records the cursor, and an orderly server's offending row is the next one. */
  lemma BlockAtCursor(cfg: Config, journal: seq<Event>, start: nat, s: System, step: Step)
    requires Increasing(journal) && Inv(cfg, journal, start, s) && BlocksAt(cfg, s, step)
    requires FaithfulServer(cfg, journal, Next(cfg, s, step))
    ensures var t := Next(cfg, s, step);
            && t.blocked.value.cursor == t.sink.cursor
            && (OrderlyStep(cfg, journal, t, step) ==>
                  OffendingIsNext(journal, t.blocked.value, Position(journal, t.sink.cursor)))
  {
    hide Feed, ServedTo, ServedOrderly, ServedFaithfully, Consistent, Position;
    if step.Chunk? {
      var t, i := Next(cfg, s, step), step.i;
      assert ServedFaithfully(cfg, journal, t.conns[i]);
      var k := ConnKeeps(cfg, journal, Position(journal, start), start, s, i, step.text,
                         Position(journal, s.sink.cursor));
      PositionSplits(journal, t.sink.cursor);
    }
  }

  lemma RecoverConnects(cfg: Config, t: System)
    requires t.blocked.Some?
    ensures var u := Next(cfg, Next(cfg, t, Recover), Connect);
            && !u.stopped && u.sink == t.sink && (t.stopped ==> u.blocked.None?)
            && u.conns == t.conns + [Conn(t.sink.cursor, "", FreshFrame, "", 0, true, false)]
  {
    hide Received;
  }

  lemma RangeIsForward(cfg: Config, journal: seq<Event>, start: nat, s: System)
    requires Inv(cfg, journal, start, s)
    ensures Position(journal, start) <= Position(journal, s.sink.cursor)
  {
  }

  lemma RunNext(cfg: Config, s: System, steps: seq<Step>, step: Step)
    ensures Run(cfg, s, steps + [step]) == Next(cfg, Run(cfg, s, steps), step)
  {
    assert (steps + [step])[..|steps|] == steps;
  }

  /** Once some open connection has been served the whole journal, all of it has been delivered. */
  lemma NothingServedIsMissing(cfg: Config, journal: seq<Event>, start: nat, steps: seq<Step>, i: nat)
    requires Increasing(journal) && FaithfulRun(cfg, journal, Initial(start), steps)
    requires var s := Run(cfg, Initial(start), steps);
             && i < |s.conns| && s.conns[i].open
             && ServedTo(cfg, journal, s.conns[i]) == |journal|
    ensures Run(cfg, Initial(start), steps).sink.delivered == journal[Position(journal, start)..]
  {
    hide Run, ServedTo;
    DeliversTheJournal(cfg, journal, start, steps);
    var s := Run(cfg, Initial(start), steps);
    assert NoneLost(cfg, journal, s.conns[i], Position(journal, s.sink.cursor));
  }
}

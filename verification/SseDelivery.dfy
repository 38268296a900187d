/**
 Written journal rows on the durable event stream (apps/vscode/src/eventStream.ts), as text cut anywhere: readable rows
 are delivered, and one that cannot be read blocks.
 */
module SseDelivery {
  import opened Text
  import opened LineReader
  import opened SseFrames
  import opened SseReader
  import opened SseWire

  // ------------------------------------------------------ written text, cut anywhere

  /** Lines that can be written: no newline inside, and no lone carriage return. */
  ghost predicate Proper(lines: seq<string>)
  {
    forall i :: 0 <= i < |lines| ==> '\n' !in lines[i] && lines[i] != "\r"
  }

  /** The first `k` characters of written lines: whole lines, and then the beginning of the next. */
  lemma {:induction false} CutText(lines: seq<string>, k: nat) returns (n: nat)
    requires Proper(lines) && k <= |TextOf(lines)|
    ensures n <= |lines| && Lines(TextOf(lines)[..k]) == lines[..n]
    ensures if n < |lines| then Rest(TextOf(lines)[..k]) <= lines[n] else Rest(TextOf(lines)[..k]) == ""
  {
    hide Lines, Rest;
    if lines == [] {
      n := 0;
      assert TextOf(lines)[..k] == "";
      NoNewline("");
    } else {
      var init, last := lines[..|lines| - 1], lines[|lines| - 1];
      var before := TextOf(init);
      if k <= |before| {
        n := CutText(init, k);
        assert TextOf(lines)[..k] == before[..k] && init[..n] == lines[..n];
      } else {
        n := CutLine(init, last, k - |before|);
        assert TextOf(lines)[..k] == before + (last + "\n")[..k - |before|];
        assert lines == init + [last];
      }
    }
  }

  lemma {:induction false} CutLine(init: seq<string>, last: string, j: nat) returns (n: nat)
    requires Proper(init) && '\n' !in last && 0 < j <= |last| + 1
    ensures var text, lines := TextOf(init) + (last + "\n")[..j], init + [last];
            && |init| <= n <= |lines| && Lines(text) == lines[..n]
            && if n == |init| then Rest(text) <= last else Rest(text) == ""
  {
    hide Lines, Rest;
    var before, more := TextOf(init), (last + "\n")[..j];
    WholeText(init);
    LinesConcat(before, more);
    assert "" + more == more;
    if j <= |last| {
      n := |init|;
      assert more == last[..j];
      NoNewline(more);
      assert init + [] == (init + [last])[..n];
    } else {
      n := |init| + 1;
      assert more == last + ['\n'] + "";
      LinesFirst(last, "");
      NoNewline("");
      assert init + [last] == (init + [last])[..n];
    }
  }

  lemma {:induction false} WholeText(lines: seq<string>)
    requires Proper(lines)
    ensures Lines(TextOf(lines)) == lines && Rest(TextOf(lines)) == ""
  {
    hide Lines, Rest;
    NoNewline("");
    if lines != [] {
      var init, last := lines[..|lines| - 1], lines[|lines| - 1];
      WholeText(init);
      LinesConcat(TextOf(init), last + "\n");
      assert "" + (last + "\n") == last + ['\n'] + "";
      LinesFirst(last, "");
      assert lines == init + ([last] + []);
    }
  }

  // ------------------------------------------------------------ within the budget

  /** However many lines have been read, the group in progress fits the budget. */
  ghost predicate GroupsFit(cfg: Config, tokens: seq<Token>)
  {
    forall n :: 0 <= n <= |tokens| ==> BytesOf(Pending(tokens[..n])) <= cfg.maxFrameBytes
  }

  lemma {:induction false} PendingAfter(before: seq<Token>, group: seq<Token>)
    requires Pending(before) == [] && Quiet(group)
    ensures Pending(before + group) == group
  {
    if group == [] {
      assert before + group == before;
    } else {
      var init := group[..|group| - 1];
      assert (before + group)[..|before + group| - 1] == before + init;
      PendingAfter(before, init);
    }
  }

  lemma {:induction false} BytesOfPrefix(group: seq<Token>, n: nat)
    requires n <= |group|
    ensures BytesOf(group[..n]) <= BytesOf(group)
  {
    if n < |group| {
      assert group[..|group| - 1][..n] == group[..n];
      BytesOfPrefix(group[..|group| - 1], n);
    } else {
      assert group[..n] == group;
    }
  }

  /** One more group and its blank line. */
  lemma GroupsFitMore(cfg: Config, before: seq<Token>, group: seq<Token>, blank: Token)
    requires GroupsFit(cfg, before) && Pending(before) == [] && Quiet(group) && blank.kind.Blank?
    requires BytesOf(group) <= cfg.maxFrameBytes
    ensures var all := before + (group + [blank]);
            GroupsFit(cfg, all) && Pending(all) == []
  {
    hide BytesOf;
    var all := before + (group + [blank]);
    assert all[|all| - 1] == blank;
    forall n | 0 <= n <= |all| ensures BytesOf(Pending(all[..n])) <= cfg.maxFrameBytes {
      if n <= |before| {
        assert all[..n] == before[..n];
      } else if n < |all| {
        var j := n - |before|;
        assert all[..n] == before + group[..j];
        PendingAfter(before, group[..j]);
        BytesOfPrefix(group, j);
      } else {
        assert all[..n] == all;
        BytesOfPrefix(group, 0);
        assert group[..0] == [];
      }
    }
  }

  lemma {:induction false} RowsFit(cfg: Config, ws: seq<Written>, es: seq<Event>)
    requires AllWrite(cfg, ws, es) && forall i :: 0 <= i < |ws| ==> Fits(cfg, ws[i])
    ensures GroupsFit(cfg, Tokens(cfg, RowLines(ws))) && Pending(Tokens(cfg, RowLines(ws))) == []
    ensures Proper(RowLines(ws))
  {
    hide BytesOf, Classify, LineBytes, BodyLines, Writes, WritesId, FieldsOf, Readable;
    if ws == [] {
      NothingFits(cfg);
    } else {
      var n := |ws| - 1;
      var init, body := RowLines(ws[..n]), BodyLines(ws[n]);
      assert Writes(cfg, ws[n], es[n]) && Fits(cfg, ws[n]);
      RowsFit(cfg, ws[..n], es[..n]);
      BodyRead(cfg, ws[n], es[n]);
      WritesItsId(cfg, ws[n], es[n]);
      BodyIsProper(cfg, ws[n], es[n].id);
      BlankIff(cfg, "");
      TokensConcat(cfg, init, body + [""]);
      TokensConcat(cfg, body, [""]);
      assert Tokens(cfg, [""]) == [Tokenize(cfg, "")];
      GroupsFitMore(cfg, Tokens(cfg, init), Tokens(cfg, body), Tokenize(cfg, ""));
    }
  }

  lemma NothingFits(cfg: Config)
    ensures GroupsFit(cfg, Tokens(cfg, [])) && Pending(Tokens(cfg, [])) == []
  {
    assert Tokens(cfg, [])[..0] == [];
  }

  lemma {:induction false} DataIsProper(data: seq<string>)
    requires forall i :: 0 <= i < |data| ==> Plain(data[i])
    ensures Proper(DataLines(data))
  {
    if data != [] {
      DataIsProper(data[..|data| - 1]);
    }
  }

  lemma WritesItsId(cfg: Config, w: Written, e: Event)
    requires Writes(cfg, w, e)
    ensures WritesId(cfg, w, e.id)
  {
  }

  lemma BodyIsProper(cfg: Config, w: Written, n: nat)
    requires WritesId(cfg, w, n)
    ensures Proper(BodyLines(w))
  {
    DataIsProper(w.data);
  }

  /** Lines whose groups fit are within the budget at every character. */
  lemma FittingTextIsInBudget(cfg: Config, sink: Sink, lines: seq<string>)
    requires Proper(lines) && GroupsFit(cfg, Tokens(cfg, lines))
    ensures InBudget(cfg, FreshCore(sink), TextOf(lines))
  {
    hide Lines, Rest, ReadLines, WithinAt, GroupsFit, Tokens;
    forall k | 0 <= k <= |TextOf(lines)| ensures WithinAt(cfg, FreshCore(sink), TextOf(lines)[..k]) {
      var n := CutText(lines, k);
      CutIsWithin(cfg, sink, lines, TextOf(lines)[..k], n);
    }
  }

  lemma CutIsWithin(cfg: Config, sink: Sink, lines: seq<string>, text: string, n: nat)
    requires GroupsFit(cfg, Tokens(cfg, lines)) && n <= |lines| && Lines(text) == lines[..n]
    requires if n < |lines| then Rest(text) <= lines[n] && lines[n] != "\r" else Rest(text) == ""
    ensures WithinAt(cfg, FreshCore(sink), text)
  {
    hide Lines, Rest, ReadLines, Classify, Frames, FieldsOf, ReadTokens, RulesOf, DispatchAll;
    var c, tokens := FreshCore(sink), Tokens(cfg, lines);
    var d := ReadAll(cfg, c, text);
    assert Tokens(cfg, lines[..n]) == tokens[..n];
    LinesAsTokens(cfg, c, lines[..n]);
    EmptyGroup();
    if d.verdict.Live? {
      var k := ReadingDispatchesFrames(RulesOf(cfg), [], c, tokens[..n]);
      assert [] + tokens[..n] == tokens[..n];
      FieldsBytes(Pending(tokens[..n]));
      assert BytesOf(Pending(tokens[..n])) <= cfg.maxFrameBytes;
      if Rest(text) != "" {
        NextLineFits(cfg, lines, n, Rest(text));
      } else {
        assert ByteLen("") == 0;
      }
    }
  }

  /** A line that is not blank joins the group in progress, with its bytes. */
  lemma PendingGrows(before: seq<Token>, t: Token)
    requires !t.kind.Blank?
    ensures BytesOf(Pending(before + [t])) == BytesOf(Pending(before)) + t.bytes
  {
    var all, group := before + [t], Pending(before);
    assert all[..|all| - 1] == before;
    assert (group + [t])[..|group|] == group;
  }

  lemma NextLineFits(cfg: Config, lines: seq<string>, n: nat, part: string)
    requires GroupsFit(cfg, Tokens(cfg, lines)) && n < |lines| && part != "" && part <= lines[n] && lines[n] != "\r"
    ensures BytesOf(Pending(Tokens(cfg, lines)[..n])) + ByteLen(part) <= cfg.maxFrameBytes
  {
    hide Classify, ByteLen, BytesOf, Pending;
    var tokens := Tokens(cfg, lines);
    BlankIff(cfg, lines[n]);
    assert tokens[..n + 1] == tokens[..n] + [tokens[n]];
    PendingGrows(tokens[..n], tokens[n]);
    assert lines[n] == part + lines[n][|part|..];
    ByteLenConcat(part, lines[n][|part|..]);
    assert BytesOf(Pending(tokens[..n + 1])) <= cfg.maxFrameBytes;
  }

  // -------------------------------------------------------------------- progress

  /** MAIN: rows written as lines that the client's readers read back, ahead of its cursor and within its budget, leave
      the connection live and are all delivered in order, however their text is cut into chunks. */
  lemma WrittenRowsAreDelivered(cfg: Config, sink: Sink, ws: seq<Written>, es: seq<Event>, chunks: seq<string>)
    requires AllWrite(cfg, ws, es) && Ahead(sink.cursor, es) && forall i :: 0 <= i < |ws| ==> Fits(cfg, ws[i])
    requires Concat(chunks) == TextOf(RowLines(ws))
    ensures var d := FeedAll(cfg, NewReader(sink), chunks).state;
            d == FreshCore(d.sink) && DeliveredAll(sink, es, d.sink)
  {
    hide ReadLines, Lines, Rest, Fits, AllWrite, Ahead, DeliveredAll, GroupsFit, Tokens;
    var c, lines := FreshCore(sink), RowLines(ws);
    RowsFit(cfg, ws, es);
    FittingTextIsInBudget(cfg, sink, lines);
    ChunkingIsInvisible(cfg, c, chunks);
    WholeText(lines);
    RowsRead(cfg, sink, ws, es);
  }

  // ------------------------------------------------------------ a row nobody can read

  /** The row has a readable id, and what it carries is neither an event nor a heartbeat. */
  ghost predicate WritesNothing(cfg: Config, w: Written, n: nat)
  {
    && WritesId(cfg, w, n)
    && var f := Frame(NameOf(cfg, w), Some(n), 0, w.data);
       !Heartbeat(cfg, f) && forall e :: !Readable(cfg, f, e)
  }

  /** Only name, id and data matter. */
  lemma SameFields(cfg: Config, f: Frame, g: Frame)
    requires f.name == g.name && f.id == g.id && f.data == g.data
    ensures Heartbeat(cfg, f) <==> Heartbeat(cfg, g)
    ensures forall e :: Readable(cfg, f, e) <==> Readable(cfg, g, e)
  {
  }

  /** Reading such a row blocks with its id and delivers nothing. */
  lemma BadRowReads(cfg: Config, sink: Sink, w: Written, n: nat)
    requires WritesNothing(cfg, w, n) && Fits(cfg, w)
    ensures var d := ReadLines(FrameReader(cfg), FreshCore(sink), BodyLines(w) + [""]);
            && d.verdict == Blocked(Some(n))
            && d.sink.cursor == sink.cursor && d.sink.delivered == sink.delivered
  {
    hide Judge, Classify, FieldsOf, BytesOf, LineBytes, BodyLines, WritesId, Heartbeat, Readable;
    var body := BodyLines(w);
    var group := Tokens(cfg, body);
    BodyFields(cfg, w, n);
    SameFields(cfg, FieldsOf(group), Frame(NameOf(cfg, w), Some(n), 0, w.data));
    JudgeIs(cfg, FieldsOf(group));
    GroupReads(RulesOf(cfg), sink, group);
    LinesAsTokens(cfg, FreshCore(sink), body + [""]);
    TokensConcat(cfg, body, [""]);
    var blank := Tokenize(cfg, "");
    BlankIff(cfg, "");
    assert Tokens(cfg, body + [""]) == group + [blank];
    assert (group + [blank])[..|group|] == group;
  }

  /** Written rows and then a bad one. */
  lemma BadRowAfterRows(cfg: Config, sink: Sink, ws: seq<Written>, es: seq<Event>, bad: Written, n: nat)
    requires AllWrite(cfg, ws, es) && Ahead(sink.cursor, es) && forall i :: 0 <= i < |ws| ==> Fits(cfg, ws[i])
    requires WritesNothing(cfg, bad, n) && Fits(cfg, bad)
    ensures var lines := RowLines(ws) + (BodyLines(bad) + [""]);
            var d := ReadLines(FrameReader(cfg), FreshCore(sink), lines);
            && Proper(lines) && GroupsFit(cfg, Tokens(cfg, lines))
            && d.verdict == Blocked(Some(n)) && DeliveredAll(sink, es, d.sink)
  {
    hide ReadLines, BodyLines, RowLines, Fits, Writes, WritesId, Classify, LineBytes, BytesOf, FieldsOf, Ahead,
         AllWrite, Heartbeat, Readable, GroupsFit;
    var c, rows, body := FreshCore(sink), RowLines(ws), BodyLines(bad);
    RowsRead(cfg, sink, ws, es);
    RowsFit(cfg, ws, es);
    ReadLinesConcat(FrameReader(cfg), c, rows, body + [""]);
    var d := ReadLines(FrameReader(cfg), c, rows);
    BadRowReads(cfg, d.sink, bad, n);
    BodyIsProper(cfg, bad, n);
    BodyFields(cfg, bad, n);
    BlankIff(cfg, "");
    TokensConcat(cfg, rows, body + [""]);
    TokensConcat(cfg, body, [""]);
    assert Tokens(cfg, [""]) == [Tokenize(cfg, "")];
    FitsMeans(cfg, bad);
    GroupsFitMore(cfg, Tokens(cfg, rows), Tokens(cfg, body), Tokenize(cfg, ""));
  }

  lemma FitsMeans(cfg: Config, w: Written)
    requires Fits(cfg, w)
    ensures BytesOf(Tokens(cfg, BodyLines(w))) <= cfg.maxFrameBytes
  {
  }

  /** Text that goes on after a refusal is within the budget if it was so up to there. */
  lemma RefusedTextIsInBudget(cfg: Config, c: Core, text: string, rest: string)
    requires InBudget(cfg, c, text) && !ReadAll(cfg, c, text).verdict.Live?
    ensures InBudget(cfg, c, text + rest)
  {
    hide ReadAll;
    forall k | 0 <= k <= |text + rest| ensures WithinAt(cfg, c, (text + rest)[..k]) {
      if k <= |text| {
        assert (text + rest)[..k] == text[..k];
      } else {
        assert (text + rest)[..k] == text + rest[..k - |text|];
        RefusedStaysRefused(cfg, c, text, rest[..k - |text|]);
      }
    }
  }

  /** MAIN: a row with a readable id that carries neither an event nor a heartbeat blocks under that id, after the rows
      before it have been delivered and whatever follows it, however the text is cut. */
  lemma BadRowBlocks(cfg: Config, sink: Sink, ws: seq<Written>, es: seq<Event>, bad: Written, n: nat, rest: string,
                     chunks: seq<string>)
    requires AllWrite(cfg, ws, es) && Ahead(sink.cursor, es) && forall i :: 0 <= i < |ws| ==> Fits(cfg, ws[i])
    requires WritesNothing(cfg, bad, n) && Fits(cfg, bad)
    requires Concat(chunks) == TextOf(RowLines(ws) + (BodyLines(bad) + [""])) + rest
    ensures var d := FeedAll(cfg, NewReader(sink), chunks).state;
            d.verdict == Blocked(Some(n)) && DeliveredAll(sink, es, d.sink)
  {
    hide ReadLines, Lines, Rest, Fits, AllWrite, Ahead, DeliveredAll, GroupsFit, Tokens, WritesNothing, RowLines,
         BodyLines, Proper, InBudget;
    var c, lines := FreshCore(sink), RowLines(ws) + (BodyLines(bad) + [""]);
    BadRowAfterRows(cfg, sink, ws, es, bad, n);
    WholeText(lines);
    FittingTextIsInBudget(cfg, sink, lines);
    RefusedTextIsInBudget(cfg, c, TextOf(lines), rest);
    ChunkingIsInvisible(cfg, c, chunks);
    RefusedStaysRefused(cfg, c, TextOf(lines), rest);
  }
}

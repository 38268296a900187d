/**
 What a server writes on the durable event stream and how the client reads it (apps/vscode/src/eventStream.ts): what
 each line means, and how journal rows written as lines are read.
 */
module SseWire {
  import opened Text
  import opened LineReader
  import opened SseFrames
  import opened SseReader

  // -------------------------------------------------------------- line by line

  predicate EndsInCr(s: string) { s != "" && s[|s| - 1] == '\r' }

  /** A line feed alone and a carriage return with a line feed end a line alike; only one carriage return is dropped. */
  lemma CrLfIsLf(cfg: Config, raw: string)
    requires !EndsInCr(raw)
    ensures Classify(cfg, raw + "\r") == Classify(cfg, raw)
    ensures DropCr(raw) == raw && DropCr(raw + "\r") == raw && DropCr(raw + "\r\r") == raw + "\r"
  {
    assert (raw + "\r")[..|raw|] == raw;
    var twice := raw + "\r\r";
    assert twice[..|twice| - 1] == raw + "\r";
  }

  lemma BlankIff(cfg: Config, raw: string)
    ensures Classify(cfg, raw).Blank? <==> raw == "" || raw == "\r"
  {
    if raw != "" && DropCr(raw) == "" {
      assert raw == [raw[0]];
    }
  }

  lemma Prefixed(p: string, x: string)
    ensures StartsWith(p + x, p) && (p + x)[|p|..] == x
  {
    assert (p + x)[..|p|] == p;
  }

  lemma NoCr(p: string, x: string)
    requires !EndsInCr(p) && !EndsInCr(x)
    ensures DropCr(p + x) == p + x
  {
    if x != "" {
      assert (p + x)[|p + x| - 1] == x[|x| - 1];
    } else {
      assert p + x == p;
    }
  }

  lemma CommentLine(cfg: Config, x: string)
    requires !EndsInCr(x)
    ensures Classify(cfg, ":" + x) == Comment
  {
    NoCr(":", x);
    Prefixed(":", x);
  }

  lemma EventLine(cfg: Config, x: string)
    requires !EndsInCr(x)
    ensures Classify(cfg, "event:" + x) == EventName(cfg.trim(x))
  {
    NoCr("event:", x);
    Prefixed("event:", x);
    OtherPrefix("event:" + x, ":");
  }

  lemma IdLine(cfg: Config, x: string)
    requires !EndsInCr(x)
    ensures var id := cfg.trim(x);
            Classify(cfg, "id:" + x) ==
              if id != "" && cfg.readId(id).Some? then GoodId(cfg.readId(id).value) else BadId
  {
    NoCr("id:", x);
    Prefixed("id:", x);
    OtherPrefix("id:" + x, ":");
    OtherPrefix("id:" + x, "event:");
  }

  /** Exactly one space after the colon is dropped. */
  lemma DataLine(cfg: Config, x: string)
    requires !EndsInCr(x)
    ensures Classify(cfg, "data: " + x) == Data(x)
    ensures !StartsWith(x, " ") ==> Classify(cfg, "data:" + x) == Data(x)
  {
    assert "data: " + x == "data:" + (" " + x);
    Prefixed(" ", x);
    DataField(cfg, " " + x);
    DataField(cfg, x);
  }

  lemma DataField(cfg: Config, y: string)
    requires !EndsInCr(y)
    ensures Classify(cfg, "data:" + y) == Data(if StartsWith(y, " ") then y[1..] else y)
  {
    var line := "data:" + y;
    NoCr("data:", y);
    Prefixed("data:", y);
    OtherPrefix(line, ":");
    OtherPrefix(line, "event:");
    OtherPrefix(line, "id:");
    assert StartsWith(y, " ") ==> line[6..] == y[1..];
  }

  /** Every other line means nothing. */
  lemma OtherLine(cfg: Config, raw: string)
    requires var line := DropCr(raw);
             line != "" && !StartsWith(line, ":") && !StartsWith(line, "event:") && !StartsWith(line, "id:")
             && !StartsWith(line, "data:")
    ensures Classify(cfg, raw) == Other
  {
  }

  // ----------------------------------------------------------- written rows

  /** One journal row as the server writes it: an optional event name, an id and data lines. */
  datatype Written = Written(name: Option<string>, id: string, data: seq<string>)

  predicate Plain(s: string) { '\n' !in s && !EndsInCr(s) }

  function DataLines(data: seq<string>): (ls: seq<string>)
  {
    if data == [] then [] else DataLines(data[..|data| - 1]) + ["data: " + data[|data| - 1]]
  }

  function HeadLines(w: Written): (ls: seq<string>)
  {
    (if w.name.Some? then ["event:" + w.name.value] else []) + ["id:" + w.id]
  }

  function BodyLines(w: Written): (ls: seq<string>) { HeadLines(w) + DataLines(w.data) }

  /** The rows one after another, a blank line after each. */
  function RowLines(ws: seq<Written>): (ls: seq<string>)
  {
    if ws == [] then [] else RowLines(ws[..|ws| - 1]) + (BodyLines(ws[|ws| - 1]) + [""])
  }

  /** Lines as text. */
  function TextOf(lines: seq<string>): (s: string)
  {
    if lines == [] then "" else TextOf(lines[..|lines| - 1]) + (lines[|lines| - 1] + "\n")
  }

  /** The row is plain text with a readable id. */
  ghost predicate WritesId(cfg: Config, w: Written, id: nat)
  {
    && (w.name.Some? ==> Plain(w.name.value)) && Plain(w.id)
    && (forall i :: 0 <= i < |w.data| ==> Plain(w.data[i]))
    && cfg.trim(w.id) != "" && cfg.readId(cfg.trim(w.id)) == Some(id)
  }

  /** The row is plain text that the client's readers read back as this event. */
  ghost predicate Writes(cfg: Config, w: Written, e: Event)
  {
    && WritesId(cfg, w, e.id)
    && w.data != [] && Join(w.data) == e.raw
    && cfg.readJson(e.raw).Object? && cfg.readJson(e.raw).supportedVersion
    && e.tag != HEARTBEAT && Tagged(cfg.readJson(e.raw).event, NameOf(cfg, w), e.tag)
  }

  function NameOf(cfg: Config, w: Written): (n: Option<string>)
  {
    if w.name.Some? then Some(cfg.trim(w.name.value)) else None
  }

  ghost predicate AllWrite(cfg: Config, ws: seq<Written>, es: seq<Event>)
  {
    |ws| == |es| && forall i :: 0 <= i < |ws| ==> Writes(cfg, ws[i], es[i])
  }

  /** The row's lines fit the frame budget. */
  predicate Fits(cfg: Config, w: Written) { BytesOf(Tokens(cfg, BodyLines(w))) <= cfg.maxFrameBytes }

  // ----------------------------------------------------------- reading one row

  lemma TokensConcat(cfg: Config, a: seq<string>, b: seq<string>)
    ensures Tokens(cfg, a + b) == Tokens(cfg, a) + Tokens(cfg, b)
  {
  }

  /** A group of field lines: nothing in it ends or refuses the frame. */
  ghost predicate Quiet(group: seq<Token>)
  {
    forall i :: 0 <= i < |group| ==> !group[i].kind.Blank? && !group[i].kind.BadId?
  }

  /** Data lines add their text to the frame. */
  lemma {:induction false} DataLinesRead(cfg: Config, before: seq<Token>, data: seq<string>)
    requires Quiet(before) && forall i :: 0 <= i < |data| ==> Plain(data[i])
    ensures var group := before + Tokens(cfg, DataLines(data));
            && Quiet(group)
            && FieldsOf(group) == FieldsOf(before).(data := FieldsOf(before).data + data, bytes := BytesOf(group))
  {
    hide Classify, FieldsOf, LineBytes;
    if data == [] {
      assert before + Tokens(cfg, DataLines(data)) == before;
      assert FieldsOf(before).bytes == BytesOf(before) by { FieldsBytes(before); }
      assert FieldsOf(before).data + data == FieldsOf(before).data;
    } else {
      var init, last := data[..|data| - 1], data[|data| - 1];
      DataLinesRead(cfg, before, init);
      var t := Tokenize(cfg, "data: " + last);
      DataLine(cfg, last);
      var some := before + Tokens(cfg, DataLines(init));
      TokensConcat(cfg, DataLines(init), ["data: " + last]);
      assert before + Tokens(cfg, DataLines(data)) == some + [t];
      AbsorbExtendsGroup(some, t);
      FieldsBytes(some + [t]);
      assert init + [last] == data;
    }
  }

  lemma FieldsBytes(group: seq<Token>)
    ensures FieldsOf(group).bytes == BytesOf(group)
  {
  }

  lemma OneField(t: Token)
    ensures FieldsOf([t]) == Absorb(FreshFrame, t)
  {
    EmptyGroup();
    AbsorbExtendsGroup([], t);
    assert [] + [t] == [t];
  }

  lemma TwoFields(t: Token, u: Token)
    ensures FieldsOf([t, u]) == Absorb(Absorb(FreshFrame, t), u)
  {
    OneField(t);
    AbsorbExtendsGroup([t], u);
    assert [t] + [u] == [t, u];
  }

  lemma HeadRead(cfg: Config, w: Written, n: nat)
    requires WritesId(cfg, w, n)
    ensures var head := Tokens(cfg, HeadLines(w));
            && Quiet(head)
            && FieldsOf(head) == Frame(NameOf(cfg, w), Some(n), BytesOf(head), [])
  {
    hide Classify, FieldsOf, LineBytes, Join, BytesOf, Tagged;
    var head, id := Tokens(cfg, HeadLines(w)), Tokenize(cfg, "id:" + w.id);
    FieldsBytes(head);
    IdLine(cfg, w.id);
    if w.name.Some? {
      var name := Tokenize(cfg, "event:" + w.name.value);
      EventLine(cfg, w.name.value);
      assert head == [name, id];
      TwoFields(name, id);
    } else {
      assert head == [id];
      OneField(id);
    }
  }

  /** A written row is read as the frame with its name, id and data. */
  lemma BodyFields(cfg: Config, w: Written, n: nat)
    requires WritesId(cfg, w, n)
    ensures var group := Tokens(cfg, BodyLines(w));
            Quiet(group) && FieldsOf(group) == Frame(NameOf(cfg, w), Some(n), BytesOf(group), w.data)
  {
    hide Classify, FieldsOf, LineBytes, Quiet, BytesOf;
    HeadRead(cfg, w, n);
    DataLinesRead(cfg, Tokens(cfg, HeadLines(w)), w.data);
    TokensConcat(cfg, HeadLines(w), DataLines(w.data));
    assert [] + w.data == w.data;
  }

  lemma BodyRead(cfg: Config, w: Written, e: Event)
    requires Writes(cfg, w, e)
    ensures var group := Tokens(cfg, BodyLines(w));
            Quiet(group) && Readable(cfg, FieldsOf(group), e)
  {
    hide Classify, FieldsOf, Quiet, BytesOf, BodyLines, WritesId;
    BodyFields(cfg, w, e.id);
  }

  /** Reading field lines within the budget only fills the frame. */
  lemma {:induction false} GroupReads(rules: Rules, sink: Sink, group: seq<Token>)
    requires Quiet(group) && BytesOf(group) <= rules.budget
    ensures ReadTokens(rules, Core(FreshFrame, sink, Live), group) == Core(FieldsOf(group), sink, Live)
  {
    hide FieldsOf, Absorb;
    if group == [] {
      EmptyGroup();
    } else {
      var init, t := group[..|group| - 1], group[|group| - 1];
      GroupReads(rules, sink, init);
      assert init + [t] == group;
      AbsorbExtendsGroup(init, t);
      FieldsBytes(group);
    }
  }

  /** Reading one written row delivers its event, unless it is behind the cursor, and leaves the frame empty. */
  lemma RowReads(cfg: Config, sink: Sink, w: Written, e: Event)
    requires Writes(cfg, w, e) && Fits(cfg, w)
    ensures var d := ReadLines(FrameReader(cfg), FreshCore(sink), BodyLines(w) + [""]);
            && d.frame == FreshFrame && d.verdict == Live
            && d.sink.cursor == Accept(sink, e).cursor && d.sink.delivered == Accept(sink, e).delivered
  {
    hide Judge, Classify, FieldsOf, Readable, BytesOf, LineBytes, BodyLines, Writes;
    var body := BodyLines(w);
    var group := Tokens(cfg, body);
    BodyRead(cfg, w, e);
    JudgeIs(cfg, FieldsOf(group));
    GroupReads(RulesOf(cfg), sink, group);
    LinesAsTokens(cfg, FreshCore(sink), body + [""]);
    TokensConcat(cfg, body, [""]);
    var blank := Tokenize(cfg, "");
    BlankIff(cfg, "");
    assert Tokens(cfg, body + [""]) == group + [blank];
    assert (group + [blank])[..|group|] == group;
  }

  /** The ids grow, from above the cursor. */
  ghost predicate Ahead(cursor: nat, es: seq<Event>)
  {
    && (forall i :: 0 <= i < |es| ==> cursor < es[i].id)
    && forall i, j :: 0 <= i < j < |es| ==> es[i].id < es[j].id
  }

  /** Exactly these events were delivered since `sink`, and the cursor is the last of them. */
  ghost predicate DeliveredAll(sink: Sink, es: seq<Event>, after: Sink)
  {
    && after.delivered == sink.delivered + es
    && after.cursor == if es == [] then sink.cursor else es[|es| - 1].id
  }

  lemma LastAhead(cursor: nat, es: seq<Event>, before: nat)
    requires es != [] && Ahead(cursor, es)
    requires before == if |es| == 1 then cursor else es[|es| - 2].id
    ensures before < es[|es| - 1].id
  {
  }

  lemma AppendLast<T>(a: seq<T>, b: seq<T>)
    requires b != []
    ensures (a + b[..|b| - 1]) + [b[|b| - 1]] == a + b
  {
  }

  lemma OneMoreDelivered(sink: Sink, es: seq<Event>, before: Sink, after: Sink)
    requires es != [] && Ahead(sink.cursor, es) && DeliveredAll(sink, es[..|es| - 1], before)
    requires var next := Accept(before, es[|es| - 1]);
             after.delivered == next.delivered && after.cursor == next.cursor
    ensures DeliveredAll(sink, es, after)
  {
    hide Ahead;
    LastAhead(sink.cursor, es, before.cursor);
    AppendLast(sink.delivered, es);
  }

  lemma FewerRows(cfg: Config, cursor: nat, ws: seq<Written>, es: seq<Event>)
    requires ws != [] && AllWrite(cfg, ws, es) && Ahead(cursor, es)
    ensures AllWrite(cfg, ws[..|ws| - 1], es[..|es| - 1]) && Ahead(cursor, es[..|es| - 1])
    ensures Writes(cfg, ws[|ws| - 1], es[|es| - 1])
  {
    hide Writes;
  }

  /** Reading written rows ahead of the cursor delivers them all. */
  lemma {:induction false} RowsRead(cfg: Config, sink: Sink, ws: seq<Written>, es: seq<Event>)
    requires AllWrite(cfg, ws, es) && Ahead(sink.cursor, es) && forall i :: 0 <= i < |ws| ==> Fits(cfg, ws[i])
    ensures var d := ReadLines(FrameReader(cfg), FreshCore(sink), RowLines(ws));
            d == FreshCore(d.sink) && DeliveredAll(sink, es, d.sink)
  {
    hide BodyLines, Writes, Fits, ReadLines, FrameReader, Ahead, AllWrite, DeliveredAll, Accept;
    var m := FrameReader(cfg);
    if ws == [] {
      RefusalOrNothing(m, FreshCore(sink));
      assert DeliveredAll(sink, es, sink) by { NoneDelivered(cfg, sink, ws, es); }
    } else {
      var n := |ws| - 1;
      assert |es| == |ws| by { AsManyEvents(cfg, ws, es); }
      FewerRows(cfg, sink.cursor, ws, es);
      RowsRead(cfg, sink, ws[..n], es[..n]);
      var d := ReadLines(m, FreshCore(sink), RowLines(ws[..n]));
      ReadLinesConcat(m, FreshCore(sink), RowLines(ws[..n]), BodyLines(ws[n]) + [""]);
      RowReads(cfg, d.sink, ws[n], es[n]);
      OneMoreDelivered(sink, es, d.sink, ReadLines(m, FreshCore(sink), RowLines(ws)).sink);
    }
  }

  lemma AsManyEvents(cfg: Config, ws: seq<Written>, es: seq<Event>)
    requires AllWrite(cfg, ws, es)
    ensures |es| == |ws|
  {
  }

  lemma NoneDelivered(cfg: Config, sink: Sink, ws: seq<Written>, es: seq<Event>)
    requires ws == [] && AllWrite(cfg, ws, es)
    ensures DeliveredAll(sink, es, sink)
  {
    assert sink.delivered + [] == sink.delivered;
  }
}

/**
 Frames of the durable event stream (apps/vscode/src/eventStream.ts): classified lines accumulate into
 frames, blank lines dispatch them, and a refusal ends the connection. The judgement of a complete frame
 is a parameter here. The declarative reading of a line sequence is defined beside the step-by-step one:
 a frame is a group of lines between blank lines, and its fields are its last `event:`, its last `id:`
 and all its `data:` lines.
 */
module SseFrames {
  import opened Text

  datatype LineKind = Blank | Comment | EventName(name: string) | GoodId(id: nat) | BadId | Data(text: string) | Other

  /** One line: what it says and what it costs. */
  datatype Token = Token(kind: LineKind, bytes: nat)

  /** The fields of one frame. */
  datatype Frame = Frame(name: Option<string>, id: Option<nat>, bytes: nat, data: seq<string>)

  const FreshFrame := Frame(None, None, 0, [])

  /** One journal event as delivered to `onEvent`. */
  datatype Event = Event(id: nat, tag: string, raw: string)

  /** The cursor-independent judgement of one complete frame. */
  datatype Judgement = Ignore | Report | Block | Offer(event: Event)

  datatype Rules = Rules(judge: Frame -> Judgement, budget: nat)

  /** What the stream's owner observes: the resume cursor, the `onEvent` calls, the `dispatch` calls and
      the number of non-terminal protocol errors reported. */
  datatype Sink = Sink(cursor: nat, delivered: seq<Event>, dispatched: seq<Frame>, reported: nat)

  datatype Verdict = Live | Blocked(offending: Option<nat>) | Failed

  datatype Core = Core(frame: Frame, sink: Sink, verdict: Verdict)

  // ---------------------------------------------------------- step by step

  /** The frame fields after one more non-blank line. */
  function Absorb(f: Frame, t: Token): (g: Frame)
  {
    var f' := f.(bytes := f.bytes + t.bytes);
    match t.kind
    case EventName(name) => f'.(name := Some(name))
    case GoodId(id) => f'.(id := Some(id))
    case Data(text) => f'.(data := f'.data + [text])
    case _ => f'
  }

  /** Take one offered event: replays behind the cursor are never redelivered. */
  function Accept(sink: Sink, e: Event): (s: Sink)
  {
    if e.id <= sink.cursor then sink
    else sink.(cursor := e.id, delivered := sink.delivered + [e])
  }

  function Dispatch(rules: Rules, sink: Sink, f: Frame): (s: Sink)
  {
    var logged := sink.(dispatched := sink.dispatched + [f]);
    match rules.judge(f)
    case Report => logged.(reported := logged.reported + 1)
    case Offer(e) => Accept(logged, e)
    case _ => logged
  }

  function Oversized(f: Frame): (v: Verdict)
  {
    if f.id.Some? then Blocked(f.id) else Failed
  }

  function TokenStep(rules: Rules, c: Core, t: Token): (d: Core)
  {
    if t.kind.Blank? then
      var sink' := Dispatch(rules, c.sink, c.frame);
      if rules.judge(c.frame).Block? then Core(c.frame, sink', Blocked(c.frame.id))
      else Core(FreshFrame, sink', Live)
    else
      var f := Absorb(c.frame, t);
      Core(f, c.sink,
           if t.kind.BadId? then Blocked(None)
           else if f.bytes > rules.budget then Oversized(f)
           else Live)
  }

  /** Lines one after another; a refusal is final. */
  function ReadTokens(rules: Rules, c: Core, tokens: seq<Token>): (d: Core)
  {
    if tokens == [] then c
    else
      var p := ReadTokens(rules, c, tokens[..|tokens| - 1]);
      if p.verdict.Live? then TokenStep(rules, p, tokens[|tokens| - 1]) else p
  }

  // ------------------------------------------------------------ declarative

  /** The lines after the last blank one. */
  function Pending(tokens: seq<Token>): (g: seq<Token>)
  {
    if tokens == [] || tokens[|tokens| - 1].kind.Blank? then []
    else Pending(tokens[..|tokens| - 1]) + [tokens[|tokens| - 1]]
  }

  /** The frames that a blank line has completed, in order. */
  function Frames(tokens: seq<Token>): (fs: seq<Frame>)
  {
    if tokens == [] then []
    else
      var init := tokens[..|tokens| - 1];
      if tokens[|tokens| - 1].kind.Blank? then Frames(init) + [FieldsOf(Pending(init))] else Frames(init)
  }

  /** The `data:` values of a group, in order. */
  function DataOf(group: seq<Token>): (ds: seq<string>)
  {
    if group == [] then []
    else
      var last := group[|group| - 1].kind;
      DataOf(group[..|group| - 1]) + (if last.Data? then [last.text] else [])
  }

  function NamesOf(group: seq<Token>): (ns: seq<string>)
  {
    if group == [] then []
    else
      var last := group[|group| - 1].kind;
      NamesOf(group[..|group| - 1]) + (if last.EventName? then [last.name] else [])
  }

  function IdsOf(group: seq<Token>): (ids: seq<nat>)
  {
    if group == [] then []
    else
      var last := group[|group| - 1].kind;
      IdsOf(group[..|group| - 1]) + (if last.GoodId? then [last.id] else [])
  }

  function BytesOf(group: seq<Token>): (n: nat)
  {
    if group == [] then 0 else BytesOf(group[..|group| - 1]) + group[|group| - 1].bytes
  }

  function Last<T>(s: seq<T>): (o: Option<T>)
  {
    if s == [] then None else Some(s[|s| - 1])
  }

  function FieldsOf(group: seq<Token>): (f: Frame)
  {
    Frame(Last(NamesOf(group)), Last(IdsOf(group)), BytesOf(group), DataOf(group))
  }

  /** Some id line of the group is not a sequence number. */
  predicate Unreadable(group: seq<Token>)
  {
    exists i :: 0 <= i < |group| && group[i].kind.BadId?
  }

  function DispatchAll(rules: Rules, sink: Sink, frames: seq<Frame>): (s: Sink)
  {
    if frames == [] then sink
    else Dispatch(rules, DispatchAll(rules, sink, frames[..|frames| - 1]), frames[|frames| - 1])
  }

  // ------------------------------------------------------------- agreement

  /** Absorbing one line is adding it to the group. */
  lemma AbsorbExtendsGroup(group: seq<Token>, t: Token)
    ensures Absorb(FieldsOf(group), t) == FieldsOf(group + [t])
  {
    assert (group + [t])[..|group|] == group;
  }

  lemma {:induction false} DispatchLog(rules: Rules, sink: Sink, frames: seq<Frame>)
    ensures DispatchAll(rules, sink, frames).dispatched == sink.dispatched + frames
  {
    if frames != [] {
      DispatchLog(rules, sink, frames[..|frames| - 1]);
    }
  }

  lemma {:induction false} FramesGrow(tokens: seq<Token>, k: nat)
    requires k <= |tokens|
    ensures Frames(tokens[..k]) <= Frames(tokens)
  {
    if k < |tokens| {
      assert tokens[..|tokens| - 1][..k] == tokens[..k];
      FramesGrow(tokens[..|tokens| - 1], k);
    } else {
      assert tokens[..k] == tokens;
    }
  }

  /** The frames completed by `more` after the lines `seen`. */
  ghost function NewFrames(seen: seq<Token>, more: seq<Token>): (fs: seq<Frame>)
    ensures Frames(seen) + fs == Frames(seen + more)
  {
    assert (seen + more)[..|seen|] == seen;
    FramesGrow(seen + more, |seen|);
    Frames(seen + more)[|Frames(seen)|..]
  }

  /** None of the frames blocks, except perhaps the last one of a reading that was refused. */
  ghost predicate OnlyLastBlocks(rules: Rules, frames: seq<Frame>, refused: bool)
  {
    forall i :: 0 <= i < |frames| && rules.judge(frames[i]).Block? ==> refused && i == |frames| - 1
  }

  /** Reading more lines dispatches exactly the frames those lines complete: all of them while nothing is
      refused, and otherwise those completed by the first `k` lines. Nothing is dispatched after a frame that
      blocks, and nothing is read after an id that is not a sequence number. */
  lemma {:induction false} ReadingDispatchesFrames(rules: Rules, seen: seq<Token>, c: Core, more: seq<Token>)
    returns (k: nat)
    requires c.verdict.Live? && c.frame == FieldsOf(Pending(seen))
    ensures k <= |more|
    ensures var d := ReadTokens(rules, c, more);
            && d.sink == DispatchAll(rules, c.sink, NewFrames(seen, more[..k]))
            && OnlyLastBlocks(rules, NewFrames(seen, more[..k]), !d.verdict.Live?)
            && (d.verdict.Live? ==> k == |more| && d.frame == FieldsOf(Pending(seen + more)) && !Unreadable(more))
  {
    if more == [] {
      k := 0;
      assert seen + more == seen && more[..0] == [];
    } else {
      var init, t := more[..|more| - 1], more[|more| - 1];
      k := ReadingDispatchesFrames(rules, seen, c, init);
      var p := ReadTokens(rules, c, init);
      if p.verdict.Live? {
        k := |more|;
        assert more[..k] == more && init[..|init|] == init && init + [t] == more;
        OneToken(rules, seen, c.sink, p, init, t);
      } else {
        assert init[..k] == more[..k];
      }
    }
  }

  /** A blank line completes the group in progress; any other line joins it. */
  lemma LineAdds(seen: seq<Token>, init: seq<Token>, t: Token)
    ensures NewFrames(seen, init + [t]) ==
            NewFrames(seen, init) + (if t.kind.Blank? then [FieldsOf(Pending(seen + init))] else [])
    ensures Pending(seen + (init + [t])) == if t.kind.Blank? then [] else Pending(seen + init) + [t]
  {
    hide FieldsOf;
    var tokens := seen + (init + [t]);
    assert tokens[..|tokens| - 1] == seen + init && tokens[|tokens| - 1] == t;
  }

  lemma DispatchLast(rules: Rules, sink: Sink, frames: seq<Frame>, f: Frame)
    ensures DispatchAll(rules, sink, frames + [f]) == Dispatch(rules, DispatchAll(rules, sink, frames), f)
  {
    assert (frames + [f])[..|frames|] == frames;
  }

  lemma OneMoreFrame(rules: Rules, frames: seq<Frame>, f: Frame)
    requires OnlyLastBlocks(rules, frames, false)
    ensures OnlyLastBlocks(rules, frames + [f], rules.judge(f).Block?)
  {
  }

  lemma EmptyGroup()
    ensures FieldsOf([]) == FreshFrame
  {
  }

  lemma {:induction false} OneToken(rules: Rules, seen: seq<Token>, sink: Sink, p: Core, init: seq<Token>, t: Token)
    requires p.verdict.Live? && p.frame == FieldsOf(Pending(seen + init))
    requires p.sink == DispatchAll(rules, sink, NewFrames(seen, init))
    requires OnlyLastBlocks(rules, NewFrames(seen, init), false)
    ensures var d := TokenStep(rules, p, t);
            && d.sink == DispatchAll(rules, sink, NewFrames(seen, init + [t]))
            && OnlyLastBlocks(rules, NewFrames(seen, init + [t]), !d.verdict.Live?)
            && (d.verdict.Live? ==> d.frame == FieldsOf(Pending(seen + (init + [t]))) && !t.kind.BadId?)
  {
    hide Dispatch, Absorb, NewFrames, FieldsOf, Pending, DispatchAll;
    var fs := NewFrames(seen, init);
    LineAdds(seen, init, t);
    EmptyGroup();
    if t.kind.Blank? {
      DispatchLast(rules, sink, fs, p.frame);
      OneMoreFrame(rules, fs, p.frame);
    } else {
      assert fs + [] == fs;
      AbsorbExtendsGroup(Pending(seen + init), t);
    }
  }

  // ------------------------------------------------------------ what one line does

  /** Every complete frame is logged; only an offered event ahead of the cursor is delivered and moves it; only a
      reported frame is reported. */
  lemma DispatchEffects(rules: Rules, sink: Sink, f: Frame)
    ensures var s, j := Dispatch(rules, sink, f), rules.judge(f);
            && s.dispatched == sink.dispatched + [f]
            && s.reported == sink.reported + (if j.Report? then 1 else 0)
            && if j.Offer? && j.event.id > sink.cursor then
                 s.cursor == j.event.id && s.delivered == sink.delivered + [j.event]
               else s.cursor == sink.cursor && s.delivered == sink.delivered
  {
  }

  /** A line is refused exactly for an unreadable id, for a frame that blocks, or for the size of the frame it belongs
      to; a frame refused for its size fails exactly if it has no id, and every block but an unreadable id's names the
      frame's. */
  lemma RefusedIff(rules: Rules, c: Core, t: Token)
    requires c.verdict.Live?
    ensures var d := TokenStep(rules, c, t);
            && (d.verdict.Live? <==>
                  if t.kind.Blank? then !rules.judge(c.frame).Block?
                  else !t.kind.BadId? && c.frame.bytes + t.bytes <= rules.budget)
            && (d.verdict.Failed? <==>
                  !t.kind.Blank? && !t.kind.BadId? && c.frame.bytes + t.bytes > rules.budget && d.frame.id.None?)
            && (d.verdict.Blocked? ==> d.verdict.offending == if t.kind.BadId? then None else d.frame.id)
            && (t.kind.Blank? && d.verdict.Live? ==> d.frame == FreshFrame)
  {
  }

  // ---------------------------------------------------------- retained data

  function DataBytes(data: seq<string>): (n: nat)
  {
    if data == [] then 0 else DataBytes(data[..|data| - 1]) + ByteLen(data[|data| - 1])
  }

  /** What a data line keeps never exceeds what it costs. */
  ghost predicate Honest(t: Token) { t.kind.Data? ==> ByteLen(t.kind.text) <= t.bytes }

  ghost predicate Retained(f: Frame) { DataBytes(f.data) <= f.bytes }

  lemma {:induction false} RetainedWithinBytes(rules: Rules, c: Core, tokens: seq<Token>)
    requires Retained(c.frame) && forall i :: 0 <= i < |tokens| ==> Honest(tokens[i])
    ensures Retained(ReadTokens(rules, c, tokens).frame)
  {
    if tokens != [] {
      var init, t := tokens[..|tokens| - 1], tokens[|tokens| - 1];
      RetainedWithinBytes(rules, c, init);
      var p := ReadTokens(rules, c, init);
      if t.kind.Data? {
        var data := p.frame.data + [t.kind.text];
        assert data[..|data| - 1] == p.frame.data;
      }
    }
  }
}

/**
 The event stream client as it runs (apps/vscode/src/eventStream.ts): the owner's cursor, stop and blocked
 state, and one connection's chunk loop, each method against the reader's specification.
 */
module EventStream {
  import opened Text
  import opened LineReader
  import F = SseFrames
  import opened SseReader

  /** The stable description of one durable protocol violation. */
  datatype ProtocolBlocked = ProtocolBlocked(cursor: nat, offending: Option<nat>)

  class Stream {
    const cfg: Config
    var cursorValue: nat
    var stopped: bool
    var blockedValue: Option<ProtocolBlocked>
    // The callbacks made so far.
    var events: seq<F.Event>
    var errors: nat
    ghost var dispatches: seq<F.Frame>

    constructor (cfg: Config, cursor: nat)
      ensures this.cfg == cfg && stopped && blockedValue == None
      ensures Observed() == F.Sink(cursor, [], [], 0)
    {
      this.cfg, cursorValue, stopped, blockedValue := cfg, cursor, true, None;
      events, errors, dispatches := [], 0, [];
    }

    ghost function Observed(): (s: F.Sink)
      reads this
    {
      F.Sink(cursorValue, events, dispatches, errors)
    }

    /** Start streaming; idempotent while running. Clears a blocked state. */
    method Start()
      modifies this`stopped, this`blockedValue
      ensures !stopped
      ensures blockedValue == if old(stopped) then None else old(blockedValue)
    {
      if stopped {
        stopped := false;
        blockedValue := None;
      }
    }

    method Stop()
      modifies this`stopped
      ensures stopped
    {
      stopped := true;
    }

    /** The explicit reconnect after a blocked state; the cursor is untouched, so the offending frame is
        asked for again. */
    method Recover()
      modifies this`stopped, this`blockedValue
      ensures old(blockedValue).None? ==> stopped == old(stopped) && blockedValue == None
      ensures old(blockedValue).Some? ==> !stopped && (old(stopped) ==> blockedValue == None)
    {
      if blockedValue.Some? {
        Start();
      }
    }

    method Block(offending: Option<nat>) returns (v: F.Verdict)
      modifies this`blockedValue
      ensures v == F.Blocked(offending)
      ensures blockedValue == Some(ProtocolBlocked(cursorValue, offending))
    {
      blockedValue := Some(ProtocolBlocked(cursorValue, offending));
      v := F.Blocked(offending);
    }

    method FrameOversized(frameId: Option<nat>) returns (v: F.Verdict)
      modifies this`blockedValue
      ensures v == if frameId.Some? then F.Blocked(frameId) else F.Failed
      ensures blockedValue == if frameId.Some? then Some(ProtocolBlocked(cursorValue, frameId)) else old(blockedValue)
    {
      if frameId.Some? {
        v := Block(frameId);
      } else {
        v := F.Failed;
      }
    }

    /** One complete frame, branch by branch. */
    method Dispatch(f: F.Frame) returns (v: F.Verdict)
      modifies this`cursorValue, this`events, this`errors, this`dispatches, this`blockedValue
      ensures Observed() == F.Dispatch(RulesOf(cfg), old(Observed()), f)
      ensures v == if Judge(cfg, f).Block? then F.Blocked(f.id) else F.Live
      ensures blockedValue ==
              if Judge(cfg, f).Block? then Some(ProtocolBlocked(cursorValue, f.id)) else old(blockedValue)
    {
      dispatches := dispatches + [f];
      v := F.Live;
      var durable := f.id.Some?;
      if |f.data| == 0 {
        if durable { v := Block(f.id); }
        return;
      }
      var data := cfg.readJson(Join(f.data));
      if data.Malformed? || data.NotObject? {
        if durable { v := Block(f.id); } else { errors := errors + 1; }
        return;
      }
      var declared := data.event;
      var tagged := if declared.Some? then declared else f.name;
      if tagged.None? {
        if durable { v := Block(f.id); } else { errors := errors + 1; }
        return;
      }
      if declared.Some? && f.name.Some? && f.name != declared {
        if durable { v := Block(f.id); } else { errors := errors + 1; }
        return;
      }
      if tagged.value == HEARTBEAT {
        return;
      }
      if f.id.None? {
        errors := errors + 1;
        return;
      }
      if !data.supportedVersion {
        v := Block(f.id);
        return;
      }
      if f.id.value <= cursorValue {
        return;
      }
      cursorValue := f.id.value;
      events := events + [F.Event(f.id.value, tagged.value, Join(f.data))];
    }
  }

  /** The reading state of one connection. */
  class Connection {
    const stream: Stream
    var buffer: string
    var bufferBytes: int
    var frame: F.Frame

    constructor (stream: Stream)
      ensures this.stream == stream && buffer == "" && bufferBytes == 0 && frame == F.FreshFrame
    {
      this.stream := stream;
      buffer, bufferBytes, frame := "", 0, F.FreshFrame;
    }

    ghost function State(): (r: Reader)
      reads this, stream
    {
      Intake(F.Core(frame, stream.Observed(), F.Live), buffer, bufferBytes)
    }

    /** One decoded chunk: every complete line is consumed, then the pending line is held to the budget. */
    method Chunk(decoded: string) returns (v: F.Verdict)
      modifies this`buffer, this`bufferBytes, this`frame
      modifies stream`cursorValue, stream`events, stream`errors, stream`dispatches, stream`blockedValue
      ensures var r := Feed(stream.cfg, old(State()), decoded);
              && v == r.state.verdict
              && stream.Observed() == r.state.sink
              && (v.Live? ==> State() == r)
      ensures stream.blockedValue ==
              if v.Blocked? then Some(ProtocolBlocked(stream.cursorValue, v.offending)) else old(stream.blockedValue)
    {
      hide F.TokenStep, Tokenize, Drain;
      v := F.Live;
      if |decoded| == 0 {
        return;
      }
      buffer := buffer + decoded;
      bufferBytes := bufferBytes + ByteLen(decoded);
      assert Drain(FrameReader(stream.cfg), State()) == Push(FrameReader(stream.cfg), old(State()), decoded);
      v := TakeLines();
      if v.Live? && frame.bytes + bufferBytes > stream.cfg.maxFrameBytes {
        v := stream.FrameOversized(frame.id);
      }
    }

    method TakeLines() returns (v: F.Verdict)
      modifies this`buffer, this`bufferBytes, this`frame
      modifies stream`cursorValue, stream`events, stream`errors, stream`dispatches, stream`blockedValue
      ensures State().(state := State().state.(verdict := v)) == Drain(FrameReader(stream.cfg), old(State()))
      ensures stream.blockedValue ==
              if v.Blocked? then Some(ProtocolBlocked(stream.cursorValue, v.offending)) else old(stream.blockedValue)
    {
      hide F.TokenStep, Tokenize, RulesOf, Drain, LineBytes;
      v := F.Live;
      ghost var m := FrameReader(stream.cfg);
      var newline := FindIndex(buffer, '\n');
      while newline >= 0
        invariant v.Live? && newline == IndexOf(buffer, '\n')
        invariant Drain(m, State()) == Drain(m, old(State()))
        invariant stream.blockedValue == old(stream.blockedValue)
        decreases |buffer|
      {
        DrainTakesLine(m, State(), newline);
        var rawLine := buffer[..newline];
        buffer := buffer[newline + 1..];
        bufferBytes := bufferBytes - LineBytes(rawLine);
        v := Line(rawLine);
        if !v.Live? {
          DrainStops(m, State().(state := State().state.(verdict := v)));
          return;
        }
        newline := FindIndex(buffer, '\n');
      }
      DrainStops(m, State());
    }

    /** One line. */
    method Line(rawLine: string) returns (v: F.Verdict)
      modifies this`frame
      modifies stream`cursorValue, stream`events, stream`errors, stream`dispatches, stream`blockedValue
      ensures F.Core(frame, stream.Observed(), v) ==
              F.TokenStep(RulesOf(stream.cfg), old(State()).state, Tokenize(stream.cfg, rawLine))
      ensures stream.blockedValue ==
              if v.Blocked? then Some(ProtocolBlocked(stream.cursorValue, v.offending)) else old(stream.blockedValue)
    {
      hide Judge, F.Dispatch, ByteLen;
      v := F.Live;
      var line := DropCr(rawLine);
      if line == "" {
        v := stream.Dispatch(frame);
        if v.Live? { frame := F.FreshFrame; }
        return;
      }
      frame := frame.(bytes := frame.bytes + LineBytes(rawLine));
      if StartsWith(line, ":") {
      } else if StartsWith(line, "event:") {
        frame := frame.(name := Some(stream.cfg.trim(line[6..])));
      } else if StartsWith(line, "id:") {
        var rawId := stream.cfg.trim(line[3..]);
        var parsed := stream.cfg.readId(rawId);
        if |rawId| > 0 && parsed.Some? {
          frame := frame.(id := parsed);
        } else {
          v := stream.Block(None);
          return;
        }
      } else if StartsWith(line, "data:") {
        var value := line[5..];
        frame := frame.(data := frame.data + [if StartsWith(value, " ") then value[1..] else value]);
      }
      if frame.bytes > stream.cfg.maxFrameBytes {
        v := stream.FrameOversized(frame.id);
      }
    }
  }
}

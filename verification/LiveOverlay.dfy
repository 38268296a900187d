/**
 The live-output overlay of the chat panel (apps/vscode/media/chat.js): a lossy, duplicating and reordering
 channel of (byte offset, content) frames reconciled with authoritative snapshots and a durable floor.
 Text is a sequence of code points; offsets are UTF-8 byte offsets.
 */
module LiveOverlay {
  import opened Text

  datatype PartKind = Prose | Reasoning | Discrete(tag: string)

  /** One logical part: a message and the kind of text. */
  datatype Key = Key(message: string, kind: PartKind)

  datatype Part = Part(text: string, bytes: nat, attempt: Option<int>, revision: int)

  /** One durable transcript entry's text buckets. */
  datatype Floor = Floor(id: string, text: Option<string>, reasoning: Option<string>)

  datatype Overlay = Overlay(instance: Option<string>, parts: map<Key, Part>, durable: seq<Floor>)

  /** A live frame after field validation: a missing or invalid offset or revision is negative. */
  datatype Frame = Frame(instance: string, key: Key, attempt: int, revision: int, offset: int, content: string)

  /** One part of a snapshot; a missing offset is negative. */
  datatype SnapPart = SnapPart(key: Key, text: string, offset: int, attempt: int, revision: int)

  datatype Snapshot = Snapshot(instance: string, parts: seq<SnapPart>)

  predicate Streams(kind: PartKind) { kind.Prose? || kind.Reasoning? }

  // ---------------------------------------------------------------- frames

  function OrEmpty(s: Option<string>): (t: string) { if s.Some? then s.value else "" }

  function Bucket(f: Floor, kind: PartKind): (s: string)
  {
    OrEmpty(if kind.Reasoning? then f.reasoning else f.text)
  }

  /** The durable text of one part: the first entry with that id. */
  function DurableBase(durable: seq<Floor>, key: Key): (s: string)
  {
    if durable == [] then ""
    else if durable[0].id == key.message then Bucket(durable[0], key.kind)
    else DurableBase(durable[1..], key)
  }

  datatype Reaction = Reaction(overlay: Overlay, advanced: bool, gap: bool)

  function Seeded(o: Overlay, key: Key): (p: Part)
  {
    if key in o.parts then o.parts[key]
    else var base := DurableBase(o.durable, key); Part(base, ByteLen(base), None, -1)
  }

  /** What one part makes of a frame of its own attempt. */
  datatype PartReaction = PartReaction(part: Part, advanced: bool, gap: bool)

  function OnPart(p: Part, f: Frame): (r: PartReaction)
  {
    var n := ByteLen(f.content);
    if f.revision <= p.revision then PartReaction(p, false, false)
    else if p.revision >= 0 && f.revision > p.revision + 1 then PartReaction(p, false, true)
    else if f.offset > p.bytes then PartReaction(p, false, true)
    else if f.offset < p.bytes then
      if f.offset + n <= p.bytes then PartReaction(p.(revision := f.revision), false, false)
      else PartReaction(p, false, true)
    else PartReaction(p.(text := p.text + f.content, bytes := p.bytes + n, revision := f.revision), true, false)
  }

  function ApplyFrame(o: Overlay, f: Frame): (r: Reaction)
  {
    if f.instance == "" || (o.instance.Some? && o.instance.value != f.instance) then Reaction(o, false, false)
    else
      var o' := o.(instance := Some(f.instance));
      if !Streams(f.key.kind) || f.content == "" || f.offset < 0 || f.revision < 0 then Reaction(o', false, false)
      else
        var p := Seeded(o, f.key);
        if p.attempt.Some? && p.attempt.value != f.attempt then
          Reaction(o'.(parts := o.parts - {f.key}), false, true)
        else
          var r := OnPart(p.(attempt := Some(f.attempt)), f);
          Reaction(o'.(parts := o.parts[f.key := r.part]), r.advanced, r.gap)
  }

  // -------------------------------------------------------------- snapshots

  function SnapBytes(s: SnapPart): (n: nat)
  {
    if s.offset >= 0 then s.offset else ByteLen(s.text)
  }

  function Reconcile(held: Part, s: SnapPart): (p: Part)
  {
    var p :=
      if held.text <= s.text then held.(text := s.text, bytes := SnapBytes(s), attempt := Some(s.attempt))
      else if s.text <= held.text then held
      else held.(text := s.text, bytes := SnapBytes(s), attempt := None);
    if p.revision < s.revision then p.(revision := s.revision) else p
  }

  function ApplySnapPart(parts: map<Key, Part>, s: SnapPart): (q: map<Key, Part>)
  {
    if !Streams(s.key.kind) then parts
    else if s.key in parts then parts[s.key := Reconcile(parts[s.key], s)]
    else if SnapBytes(s) > 0 then parts[s.key := Part(s.text, SnapBytes(s), Some(s.attempt), s.revision)]
    else parts
  }

  function ApplySnapParts(parts: map<Key, Part>, ss: seq<SnapPart>): (q: map<Key, Part>)
  {
    if ss == [] then parts else ApplySnapPart(ApplySnapParts(parts, ss[..|ss| - 1]), ss[|ss| - 1])
  }

  /** The lineage after a snapshot arrived, and the parts it is reconciled into. */
  function Adopt(o: Overlay, instance: string): (p: Overlay)
  {
    if instance == "" then o
    else if o.instance.Some? && o.instance.value != instance then o.(instance := Some(instance), parts := map[])
    else o.(instance := Some(instance))
  }

  function ApplySnapshot(o: Overlay, s: Snapshot): (p: Overlay)
  {
    var o' := Adopt(o, s.instance);
    o'.(parts := ApplySnapParts(o'.parts, s.parts))
  }

  // ----------------------------------------------------------------- merging

  /** The text shown for one bucket. */
  function MergedText(parts: map<Key, Part>, key: Key, base: string): (s: string)
    ensures base <= s
  {
    if key in parts && base <= parts[key].text then parts[key].text else base
  }

  /** The overlay after showing one bucket: a part the floor has overtaken restarts at the floor. */
  function MergedParts(parts: map<Key, Part>, key: Key, base: string): (q: map<Key, Part>)
  {
    if key in parts && !(base <= parts[key].text)
    then parts[key := parts[key].(text := base, bytes := ByteLen(base), attempt := None)]
    else parts
  }

  function MergeEntry(parts: map<Key, Part>, f: Floor): (q: map<Key, Part>)
  {
    var q := MergedParts(parts, Key(f.id, Prose), OrEmpty(f.text));
    MergedParts(q, Key(f.id, Reasoning), OrEmpty(f.reasoning))
  }

  function MergeFloor(parts: map<Key, Part>, durable: seq<Floor>): (q: map<Key, Part>)
  {
    if durable == [] then parts else MergeEntry(MergeFloor(parts, durable[..|durable| - 1]), durable[|durable| - 1])
  }

  /** A conversation switch drops the parts and the floor; the accepted instance stays. */
  function Switched(o: Overlay): (p: Overlay) { o.(parts := map[], durable := []) }
}

/**
 What the live-output overlay (apps/vscode/media/chat.js) holds over whole runs, against the server's own texts. Every
 attempt of a part may say something else; frames are slices of their attempt's text, snapshot parts prefixes of
 theirs, and durable text a prefix of some attempt's.
 */
module LiveLineages {
  import opened Text
  import opened LiveOverlay

  // ----------------------------------- one logical text per part and lineage

  /** Where a text comes from: a conversation, a server instance and an attempt of it. */
  datatype Lineage = Lineage(conversation: string, instance: string, attempt: int)

  /** The server's text of each part, lineage by lineage: two attempts need not agree on anything. */
  type Logical = (Lineage, Key) -> string

  function LineageOf(conversation: string, f: Frame): (l: Lineage) { Lineage(conversation, f.instance, f.attempt) }

  /** The frame carries the code points from `i` to `j`, at their byte offset. */
  ghost predicate SliceOf(t: string, i: nat, j: nat, f: Frame)
  {
    i <= j <= |t| && f.content == t[i..j] && f.offset == ByteLen(t[..i])
  }

  ghost predicate FrameFrom(logical: Logical, conversation: string, f: Frame)
  {
    var t := logical(LineageOf(conversation, f), f.key);
    exists i: nat, j: nat :: SliceOf(t, i, j, f)
  }

  /** The frame belongs to the server instance the panel follows, or starts one. */
  predicate Follows(o: Overlay, f: Frame)
  {
    f.instance != "" && (o.instance.None? || o.instance.value == f.instance)
  }

  predicate WellFormed(f: Frame)
  {
    Streams(f.key.kind) && f.content != "" && f.offset >= 0 && f.revision >= 0
  }

  /** A frame the panel would look at is a slice of its own attempt's text; frames of other instances are
      unrestricted. */
  ghost predicate FrameDrawn(logical: Logical, conversation: string, o: Overlay, f: Frame)
  {
    Follows(o, f) ==> FrameFrom(logical, conversation, f)
  }

  ghost predicate SnapPartFrom(logical: Logical, conversation: string, instance: string, s: SnapPart)
  {
    && s.text <= logical(Lineage(conversation, instance, s.attempt), s.key)
    && (s.offset >= 0 ==> s.offset == ByteLen(s.text))
  }

  ghost predicate SnapFrom(logical: Logical, conversation: string, instance: string, ss: seq<SnapPart>)
  {
    forall i :: 0 <= i < |ss| ==> SnapPartFrom(logical, conversation, instance, ss[i])
  }

  ghost predicate PrefixOfLineage(logical: Logical, conversation: string, key: Key, text: string, l: Lineage)
  {
    l.conversation == conversation && text <= logical(l, key)
  }

  /** The text was saved from some lineage of the conversation, the panel cannot know which. */
  ghost predicate Saved(logical: Logical, conversation: string, key: Key, text: string)
  {
    exists l :: PrefixOfLineage(logical, conversation, key, text, l)
  }

  ghost predicate FloorFrom(logical: Logical, conversation: string, f: Floor)
  {
    && Saved(logical, conversation, Key(f.id, Prose), OrEmpty(f.text))
    && Saved(logical, conversation, Key(f.id, Reasoning), OrEmpty(f.reasoning))
  }

  ghost predicate DurableFrom(logical: Logical, conversation: string, durable: seq<Floor>)
  {
    forall i :: 0 <= i < |durable| ==> FloorFrom(logical, conversation, durable[i])
  }

  /** A prefix of the text with an exact byte count. */
  ghost predicate Along(t: string, p: Part) { p.text <= t && p.bytes == ByteLen(p.text) }

  /** The part's text came from lineage `l`; a pinned part's text came from the lineage it is pinned to. */
  ghost predicate HeldFrom(logical: Logical, conversation: string, instance: string, key: Key, p: Part, l: Lineage)
  {
    && l.conversation == conversation && Along(logical(l, key), p)
    && (p.attempt.Some? ==> l == Lineage(conversation, instance, p.attempt.value))
  }

  ghost predicate Held(logical: Logical, conversation: string, instance: string, key: Key, p: Part)
  {
    exists l :: HeldFrom(logical, conversation, instance, key, p, l)
  }

  ghost predicate AllHeld(logical: Logical, conversation: string, instance: string, parts: map<Key, Part>)
  {
    forall k :: k in parts ==> Streams(k.kind) && Held(logical, conversation, instance, k, parts[k])
  }

  /** Every held text is a prefix of one lineage's text, the pinned one's if there is one, with an exact byte count. */
  ghost predicate Inv(logical: Logical, conversation: string, o: Overlay)
  {
    && DurableFrom(logical, conversation, o.durable)
    && (o.instance.None? ==> o.parts == map[])
    && (o.instance.Some? ==> AllHeld(logical, conversation, o.instance.value, o.parts))
  }

  /** The frame finds an unpinned part whose text is not its own attempt's, and takes it over. */
  ghost predicate Mixes(logical: Logical, conversation: string, o: Overlay, f: Frame)
  {
    && Follows(o, f) && WellFormed(f)
    && (var p := Seeded(o, f.key);
        p.attempt.None? && !(p.text <= logical(LineageOf(conversation, f), f.key)))
  }

  // ------------------------------------------------------------------ frames

  lemma {:induction false} BaseSaved(logical: Logical, conversation: string, durable: seq<Floor>, key: Key)
    requires DurableFrom(logical, conversation, durable) && Streams(key.kind)
    ensures Saved(logical, conversation, key, DurableBase(durable, key))
  {
    if durable == [] {
      assert PrefixOfLineage(logical, conversation, key, "", Lineage(conversation, "", 0));
    } else if durable[0].id == key.message {
      assert FloorFrom(logical, conversation, durable[0]);
    } else {
      BaseSaved(logical, conversation, durable[1..], key);
    }
  }

  /** Appending at the held length is the only way a part grows, and it grows along the frame's text. */
  lemma PartStaysHeld(t: string, p: Part, f: Frame, i: nat, j: nat)
    requires Along(t, p) && SliceOf(t, i, j, f)
    ensures Along(t, OnPart(p, f).part)
    ensures OnPart(p, f).advanced ==> i == |p.text| && OnPart(p, f).part.text == t[..j]
  {
    assert p.text == t[..|p.text|];
    ByteOffsetsAreInjective(t, i, |p.text|);
    if OnPart(p, f).advanced {
      assert p.text + f.content == t[..j];
      ByteLenConcat(p.text, f.content);
    }
  }

  /** A frame leaves the attempt alone and never shortens the text. */
  lemma PartGrows(p: Part, f: Frame)
    ensures OnPart(p, f).part.attempt == p.attempt && p.text <= OnPart(p, f).part.text
  {
  }

  /** The part a frame meets, in a sound overlay. */
  lemma SeededIsHeld(logical: Logical, conversation: string, o: Overlay, f: Frame)
    requires Inv(logical, conversation, o) && Follows(o, f) && Streams(f.key.kind)
    ensures Held(logical, conversation, f.instance, f.key, Seeded(o, f.key))
  {
    hide DurableBase, ByteLen;
    if f.key !in o.parts {
      BaseSaved(logical, conversation, o.durable, f.key);
      var base := DurableBase(o.durable, f.key);
      var l :| PrefixOfLineage(logical, conversation, f.key, base, l);
      assert HeldFrom(logical, conversation, f.instance, f.key, Seeded(o, f.key), l);
    }
  }

  /** MAIN: a frame of any attempt keeps the overlay sound if and only if it does not take over an unpinned part
      with another lineage's text; and it never shortens a part it keeps. */
  lemma FrameKeepsIff(logical: Logical, conversation: string, o: Overlay, f: Frame)
    requires Inv(logical, conversation, o) && FrameDrawn(logical, conversation, o, f)
    ensures Inv(logical, conversation, ApplyFrame(o, f).overlay) <==> !Mixes(logical, conversation, o, f)
    ensures var o' := ApplyFrame(o, f).overlay;
            forall k :: k in o.parts && k in o'.parts ==> o.parts[k].text <= o'.parts[k].text
  {
    hide OnPart, Seeded, Along, DurableFrom, FrameFrom;
    if Follows(o, f) && WellFormed(f) {
      var p := Seeded(o, f.key);
      assert f.key in o.parts ==> p == o.parts[f.key] by { SeededIs(o, f.key); }
      if p.attempt.None? || p.attempt.value == f.attempt {
        PinnedFrame(logical, conversation, o, f);
      }
    }
  }

  lemma SeededIs(o: Overlay, key: Key)
    ensures key in o.parts ==> Seeded(o, key) == o.parts[key]
    ensures key !in o.parts ==> Seeded(o, key).attempt.None?
  {
  }

  /** A frame pins the part it meets: it is then its attempt's if and only if its text already was. */
  lemma PinnedFrame(logical: Logical, conversation: string, o: Overlay, f: Frame)
    requires Inv(logical, conversation, o) && FrameFrom(logical, conversation, f)
    requires Follows(o, f) && WellFormed(f)
    requires var p := Seeded(o, f.key); p.attempt.None? || p.attempt.value == f.attempt
    ensures var p := Seeded(o, f.key);
            var q := OnPart(p.(attempt := Some(f.attempt)), f).part;
            && p.text <= q.text && q.attempt == Some(f.attempt)
            && (Held(logical, conversation, f.instance, f.key, q) <==> !Mixes(logical, conversation, o, f))
  {
    hide OnPart, Seeded, ByteLen;
    var t, p := logical(LineageOf(conversation, f), f.key), Seeded(o, f.key);
    var pinned := p.(attempt := Some(f.attempt));
    var q := OnPart(pinned, f).part;
    var i: nat, j: nat :| SliceOf(t, i, j, f);
    SeededIsHeld(logical, conversation, o, f);
    PartGrows(pinned, f);
    if p.text <= t {
      PartStaysHeld(t, pinned, f, i, j);
      assert HeldFrom(logical, conversation, f.instance, f.key, q, LineageOf(conversation, f));
    }
  }

  // -------------------------------------------------------------- snapshots

  predicate Comparable(a: string, b: string) { a <= b || b <= a }

  /** A snapshot part of any attempt leaves the longer of two texts that agree; where they do not, the snapshot's
      own, unpinned. So it shortens what is held exactly when the two diverge. */
  lemma ReconcileHeld(logical: Logical, conversation: string, instance: string, held: Part, s: SnapPart)
    requires Held(logical, conversation, instance, s.key, held)
    requires SnapPartFrom(logical, conversation, instance, s)
    ensures var p := Reconcile(held, s);
            && Held(logical, conversation, instance, s.key, p)
            && s.text <= p.text && (p.text == held.text || p.text == s.text)
            && (held.text <= p.text <==> Comparable(held.text, s.text))
            && (!Comparable(held.text, s.text) ==> p.text == s.text && p.attempt.None?)
            && (held.text <= s.text ==> p.text == s.text && p.attempt == Some(s.attempt))
            && (s.text < held.text ==> p.text == held.text && p.attempt == held.attempt)
            && p.revision == Max(held.revision, s.revision)
  {
    var p, b := Reconcile(held, s), Lineage(conversation, instance, s.attempt);
    if s.text <= held.text && !(held.text <= s.text) {
      var l :| HeldFrom(logical, conversation, instance, s.key, held, l);
      assert HeldFrom(logical, conversation, instance, s.key, p, l);
    } else {
      assert HeldFrom(logical, conversation, instance, s.key, p, b);
    }
  }

  lemma SnapPartKeeps(logical: Logical, conversation: string, instance: string, parts: map<Key, Part>, s: SnapPart)
    requires AllHeld(logical, conversation, instance, parts) && SnapPartFrom(logical, conversation, instance, s)
    ensures var q := ApplySnapPart(parts, s);
            && AllHeld(logical, conversation, instance, q)
            && (Streams(s.key.kind) && s.text != "" ==> s.key in q && s.text <= q[s.key].text)
            && (Streams(s.key.kind) && s.text != "" && s.key !in parts ==>
                  q[s.key] == Part(s.text, ByteLen(s.text), Some(s.attempt), s.revision))
  {
    hide Reconcile, ByteLen;
    if Streams(s.key.kind) && s.key in parts {
      ReconcileHeld(logical, conversation, instance, parts[s.key], s);
    } else if Streams(s.key.kind) && SnapBytes(s) > 0 {
      var p := Part(s.text, SnapBytes(s), Some(s.attempt), s.revision);
      assert HeldFrom(logical, conversation, instance, s.key, p, Lineage(conversation, instance, s.attempt));
    } else if Streams(s.key.kind) && s.text != "" {
      assert SnapBytes(s) == ByteLen(s.text) > 0 by { NonEmptyBytes(s.text); }
    }
  }

  /** A part the snapshot brings is counted as the snapshot says, if it says so. */
  lemma SnapshotTakesOffset(parts: map<Key, Part>, s: SnapPart)
    requires Streams(s.key.kind) && s.offset > 0 && (s.key in parts ==> parts[s.key].text <= s.text)
    ensures s.key in ApplySnapPart(parts, s) && ApplySnapPart(parts, s)[s.key].bytes == s.offset
  {
  }

  lemma NonEmptyBytes(s: string)
    requires s != ""
    ensures ByteLen(s) > 0
  {
  }

  /** No later part of the snapshot names the same text. */
  predicate LastWord(ss: seq<SnapPart>, n: nat)
    requires n < |ss|
  {
    forall m :: n < m < |ss| ==> ss[m].key != ss[n].key
  }

  /** MAIN: a snapshot of any mixture of attempts keeps every part sound, and afterwards each part it names holds
      at least what the snapshot last said of it. */
  lemma {:induction false} SnapshotKeeps(logical: Logical, conversation: string, instance: string,
                                         parts: map<Key, Part>, ss: seq<SnapPart>)
    requires AllHeld(logical, conversation, instance, parts) && SnapFrom(logical, conversation, instance, ss)
    ensures var q := ApplySnapParts(parts, ss);
            && AllHeld(logical, conversation, instance, q)
            && (forall n :: 0 <= n < |ss| && LastWord(ss, n) && Streams(ss[n].key.kind) && ss[n].text != "" ==>
                  ss[n].key in q && ss[n].text <= q[ss[n].key].text)
  {
    hide ApplySnapPart, AllHeld;
    if ss != [] {
      var init, s := ss[..|ss| - 1], ss[|ss| - 1];
      SnapshotKeeps(logical, conversation, instance, parts, init);
      var p, q := ApplySnapParts(parts, init), ApplySnapParts(parts, ss);
      SnapPartKeeps(logical, conversation, instance, p, s);
      forall n | 0 <= n < |ss| && LastWord(ss, n) && Streams(ss[n].key.kind) && ss[n].text != ""
        ensures ss[n].key in q && ss[n].text <= q[ss[n].key].text
      {
        if n < |init| {
          assert ss[n] == init[n] && s.key != ss[n].key;
          assert forall m :: n < m < |init| ==> init[m] == ss[m];
          OtherSnapPart(p, s, ss[n].key);
        }
      }
    }
  }

  lemma OtherSnapPart(parts: map<Key, Part>, s: SnapPart, k: Key)
    requires k != s.key
    ensures k in ApplySnapPart(parts, s) <==> k in parts
    ensures k in parts ==> ApplySnapPart(parts, s)[k] == parts[k]
  {
  }

  /** What is held of `k`, and all that a snapshot says of it, are prefixes of one text. */
  ghost predicate OneText(parts: map<Key, Part>, ss: seq<SnapPart>, k: Key, t: string)
  {
    && (k in parts ==> parts[k].text <= t)
    && forall n :: 0 <= n < |ss| && ss[n].key == k ==> ss[n].text <= t
  }

  /** MAIN: within one text a snapshot never shortens what is held, a newer live suffix included. */
  lemma {:induction false} SnapshotNeverShortens(parts: map<Key, Part>, ss: seq<SnapPart>, k: Key, t: string)
    requires OneText(parts, ss, k, t)
    ensures var q := ApplySnapParts(parts, ss);
            (k in q ==> q[k].text <= t) && (k in parts ==> k in q && parts[k].text <= q[k].text)
  {
    if ss != [] {
      var init, s := ss[..|ss| - 1], ss[|ss| - 1];
      assert forall n :: 0 <= n < |init| ==> init[n] == ss[n];
      SnapshotNeverShortens(parts, init, k, t);
      if k != s.key {
        OtherSnapPart(ApplySnapParts(parts, init), s, k);
      } else {
        assert s.text <= t;
      }
    }
  }

  // ----------------------------------------------------------------- merging

  /** What is shown of a part is, like what is held of it, a prefix of one lineage's text. */
  lemma MergePartKeeps(logical: Logical, conversation: string, instance: string, parts: map<Key, Part>, key: Key,
                       base: string)
    requires AllHeld(logical, conversation, instance, parts) && Saved(logical, conversation, key, base)
    ensures AllHeld(logical, conversation, instance, MergedParts(parts, key, base))
    ensures Saved(logical, conversation, key, MergedText(parts, key, base))
    ensures key in parts ==> MergedText(parts, key, base) == MergedParts(parts, key, base)[key].text
  {
    hide ByteLen;
    if key in parts && !(base <= parts[key].text) {
      var l :| PrefixOfLineage(logical, conversation, key, base, l);
      assert HeldFrom(logical, conversation, instance, key, MergedParts(parts, key, base)[key], l);
    } else if key in parts {
      var l :| HeldFrom(logical, conversation, instance, key, parts[key], l);
      assert PrefixOfLineage(logical, conversation, key, parts[key].text, l);
    }
  }

  lemma {:induction false} MergeKeeps(logical: Logical, conversation: string, instance: string,
                                      parts: map<Key, Part>, durable: seq<Floor>)
    requires AllHeld(logical, conversation, instance, parts) && DurableFrom(logical, conversation, durable)
    ensures AllHeld(logical, conversation, instance, MergeFloor(parts, durable))
  {
    hide MergedParts, AllHeld, Saved;
    if durable != [] {
      var init, f := durable[..|durable| - 1], durable[|durable| - 1];
      MergeKeeps(logical, conversation, instance, parts, init);
      assert FloorFrom(logical, conversation, f);
      var p := MergeFloor(parts, init);
      MergePartKeeps(logical, conversation, instance, p, Key(f.id, Prose), OrEmpty(f.text));
      var q := MergedParts(p, Key(f.id, Prose), OrEmpty(f.text));
      MergePartKeeps(logical, conversation, instance, q, Key(f.id, Reasoning), OrEmpty(f.reasoning));
    }
  }

  /** The last word of the floor on an entry. */
  predicate LastFloor(durable: seq<Floor>, n: nat)
    requires n < |durable|
  {
    forall m :: n < m < |durable| ==> durable[m].id != durable[n].id
  }

  lemma OtherEntry(parts: map<Key, Part>, f: Floor, k: Key)
    requires k.message != f.id
    ensures k in MergeEntry(parts, f) <==> k in parts
    ensures k in parts ==> MergeEntry(parts, f)[k] == parts[k]
  {
  }

  lemma EntryCatchesUp(parts: map<Key, Part>, f: Floor, kind: PartKind)
    requires Streams(kind)
    ensures var k, q := Key(f.id, kind), MergeEntry(parts, f);
            k in q ==> k in parts && Bucket(f, kind) <= q[k].text
  {
  }

  /** After a merge no part is behind the floor it was merged over. */
  lemma {:induction false} MergeCatchesUp(parts: map<Key, Part>, durable: seq<Floor>, n: nat, kind: PartKind)
    requires n < |durable| && LastFloor(durable, n) && Streams(kind)
    ensures var k, q := Key(durable[n].id, kind), MergeFloor(parts, durable);
            k in q ==> Bucket(durable[n], kind) <= q[k].text
  {
    hide MergeEntry, Bucket;
    var init, last := durable[..|durable| - 1], durable[|durable| - 1];
    if n == |durable| - 1 {
      EntryCatchesUp(MergeFloor(parts, init), last, kind);
    } else {
      assert forall m :: 0 <= m < |init| ==> init[m] == durable[m];
      MergeCatchesUp(parts, init, n, kind);
      OtherEntry(MergeFloor(parts, init), last, Key(durable[n].id, kind));
    }
  }

  /** What is held of `k`, and the floor's buckets for it, are prefixes of one text. */
  ghost predicate OneFloorText(parts: map<Key, Part>, durable: seq<Floor>, k: Key, t: string)
  {
    && (k in parts ==> parts[k].text <= t)
    && forall n :: 0 <= n < |durable| && durable[n].id == k.message ==> Bucket(durable[n], k.kind) <= t
  }

  lemma EntryNeverShortens(parts: map<Key, Part>, f: Floor, k: Key, t: string)
    requires Streams(k.kind) && k.message == f.id && Bucket(f, k.kind) <= t && (k in parts ==> parts[k].text <= t)
    ensures var q := MergeEntry(parts, f);
            (k in q <==> k in parts) && (k in parts ==> parts[k].text <= q[k].text <= t)
  {
  }

  /** Within one text a durable floor never shortens what is held. */
  lemma {:induction false} MergeNeverShortens(parts: map<Key, Part>, durable: seq<Floor>, k: Key, t: string)
    requires OneFloorText(parts, durable, k, t) && Streams(k.kind)
    ensures var q := MergeFloor(parts, durable);
            (k in q <==> k in parts) && (k in parts ==> parts[k].text <= q[k].text <= t)
  {
    hide MergeEntry, Bucket;
    if durable != [] {
      var init, f := durable[..|durable| - 1], durable[|durable| - 1];
      assert forall n :: 0 <= n < |init| ==> init[n] == durable[n];
      MergeNeverShortens(parts, init, k, t);
      if f.id == k.message {
        EntryNeverShortens(MergeFloor(parts, init), f, k, t);
      } else {
        OtherEntry(MergeFloor(parts, init), f, k);
      }
    }
  }

  // ------------------------------------------------------------------- runs

  /** The panel's overlay and the conversation it shows. */
  datatype View = View(overlay: Overlay, conversation: string)

  /** What the panel can receive, in any order, any number of times. */
  datatype Message = Live(frame: Frame) | Resync(snapshot: Snapshot) | Durable(floor: seq<Floor>)
                   | Switch(conversation: string)

  /** A durable transcript replaces the floor and is merged. */
  function Received(o: Overlay, m: Message): (p: Overlay)
  {
    match m
    case Live(f) => ApplyFrame(o, f).overlay
    case Resync(s) => ApplySnapshot(o, s)
    case Durable(floor) => o.(parts := MergeFloor(o.parts, floor), durable := floor)
    case Switch(_) => Switched(o)
  }

  function Receive(v: View, m: Message): (w: View)
  {
    View(Received(v.overlay, m), if m.Switch? then m.conversation else v.conversation)
  }

  /** The instance a snapshot belongs to, given the one the panel follows. */
  function Owner(o: Overlay, s: Snapshot): (i: Option<string>)
  {
    if s.instance != "" then Some(s.instance) else o.instance
  }

  /** The message is drawn from the texts of the conversation shown, each part from its own attempt. */
  ghost predicate Drawn(logical: Logical, v: View, m: Message)
  {
    match m
    case Live(f) => FrameDrawn(logical, v.conversation, v.overlay, f)
    case Resync(s) =>
      Owner(v.overlay, s).Some? && SnapFrom(logical, v.conversation, Owner(v.overlay, s).value, s.parts)
    case Durable(floor) => DurableFrom(logical, v.conversation, floor)
    case Switch(_) => true
  }

  ghost predicate Sound(logical: Logical, v: View) { Inv(logical, v.conversation, v.overlay) }

  ghost predicate MixesAt(logical: Logical, v: View, m: Message)
  {
    m.Live? && Mixes(logical, v.conversation, v.overlay, m.frame)
  }

  function Run(v: View, ms: seq<Message>): (w: View)
  {
    if ms == [] then v else Receive(Run(v, ms[..|ms| - 1]), ms[|ms| - 1])
  }

  ghost predicate AllDrawn(logical: Logical, v: View, ms: seq<Message>)
  {
    ms == [] || (AllDrawn(logical, v, ms[..|ms| - 1]) && Drawn(logical, Run(v, ms[..|ms| - 1]), ms[|ms| - 1]))
  }

  lemma {:induction false} EmptyFloor(durable: seq<Floor>)
    ensures MergeFloor(map[], durable) == map[]
  {
    if durable != [] {
      EmptyFloor(durable[..|durable| - 1]);
    }
  }

  lemma ReceiveKeepsIff(logical: Logical, v: View, m: Message)
    requires Sound(logical, v) && Drawn(logical, v, m)
    ensures Sound(logical, Receive(v, m)) <==> !MixesAt(logical, v, m)
  {
    hide ApplyFrame, ApplySnapParts, MergeFloor, Mixes, Held;
    var o, c := v.overlay, v.conversation;
    match m
    case Live(f) => FrameKeepsIff(logical, c, o, f);
    case Resync(s) =>
      SnapshotKeeps(logical, c, Owner(o, s).value, Adopt(o, s.instance).parts, s.parts);
    case Durable(floor) =>
      if o.instance.Some? { MergeKeeps(logical, c, o.instance.value, o.parts, floor); } else { EmptyFloor(floor); }
    case Switch(_) =>
  }

  ghost predicate SoundThroughout(logical: Logical, v: View, ms: seq<Message>)
  {
    Sound(logical, Run(v, ms)) && (ms == [] || SoundThroughout(logical, v, ms[..|ms| - 1]))
  }

  ghost predicate NeverMixes(logical: Logical, v: View, ms: seq<Message>)
  {
    ms == [] || (NeverMixes(logical, v, ms[..|ms| - 1]) && !MixesAt(logical, Run(v, ms[..|ms| - 1]), ms[|ms| - 1]))
  }

  /** MAIN: over every interleaving of lost, duplicated, reordered or overlapping frames and snapshots of any
      attempts, durable merges and conversation switches, every held text is at all times a prefix of its own
      lineage's text with an exact byte count, if and only if no frame takes over an unpinned part with another
      lineage's text. */
  lemma {:induction false} LineagesStayApartIff(logical: Logical, v: View, ms: seq<Message>)
    requires Sound(logical, v) && AllDrawn(logical, v, ms)
    ensures SoundThroughout(logical, v, ms) <==> NeverMixes(logical, v, ms)
  {
    hide Receive, Sound, Drawn, MixesAt;
    if ms != [] {
      var init := ms[..|ms| - 1];
      LineagesStayApartIff(logical, v, init);
      if SoundThroughout(logical, v, init) {
        ReceiveKeepsIff(logical, Run(v, init), ms[|init|]);
      }
    }
  }

  /** All lineages of a conversation say the same of a part. */
  ghost predicate OneTextPerPart(logical: Logical)
  {
    forall l: Lineage, m: Lineage, k: Key :: l.conversation == m.conversation ==> logical(l, k) == logical(m, k)
  }

  /** MAIN: with one logical text per part and conversation, every held text is a prefix of it with an exact byte
      count, over every interleaving and across conversation switches. */
  lemma {:induction false} HeldIsAlwaysAPrefix(logical: Logical, v: View, ms: seq<Message>)
    requires OneTextPerPart(logical) && Sound(logical, v) && AllDrawn(logical, v, ms)
    ensures Sound(logical, Run(v, ms))
    ensures var w := Run(v, ms);
            forall k, l: Lineage :: k in w.overlay.parts && l.conversation == w.conversation ==>
              Along(logical(l, k), w.overlay.parts[k])
  {
    hide Along, Drawn, Receive;
    if ms != [] {
      var init, m := ms[..|ms| - 1], ms[|ms| - 1];
      HeldIsAlwaysAPrefix(logical, v, init);
      ReceiveKeepsIff(logical, Run(v, init), m);
      if m.Live? {
        OneTextNeverMixes(logical, Run(v, init), m.frame);
      }
    }
    var w := Run(v, ms);
    forall k, l: Lineage | k in w.overlay.parts && l.conversation == w.conversation
      ensures Along(logical(l, k), w.overlay.parts[k])
    {
      assert w.overlay.instance.Some?;
      var h :| HeldFrom(logical, w.conversation, w.overlay.instance.value, k, w.overlay.parts[k], h);
      assert logical(l, k) == logical(h, k);
    }
  }

  lemma OneTextNeverMixes(logical: Logical, v: View, f: Frame)
    requires OneTextPerPart(logical) && Sound(logical, v)
    ensures !MixesAt(logical, v, Live(f))
  {
    hide Seeded;
    var o, c := v.overlay, v.conversation;
    if Follows(o, f) && WellFormed(f) {
      SeededIsHeld(logical, c, o, f);
      var l :| HeldFrom(logical, c, f.instance, f.key, Seeded(o, f.key), l);
      assert logical(l, f.key) == logical(LineageOf(c, f), f.key);
    }
  }

  // ------------------------------------------------------- frames and attempts

  /** The frame is the next revision and starts where the part ends. */
  predicate Fits(p: Part, f: Frame)
  {
    f.revision > p.revision && (p.revision >= 0 ==> f.revision == p.revision + 1) && f.offset == p.bytes
  }

  /** A frame of another lineage than the one a part's text came from extends that text if and only if the part
      is unpinned and the frame fits. A pinned part it meets is dropped with one resync; no other part changes. */
  lemma ForeignFrameExtendsIff(logical: Logical, conversation: string, o: Overlay, f: Frame, l: Lineage)
    requires Inv(logical, conversation, o) && f.key in o.parts && l != LineageOf(conversation, f)
    requires HeldFrom(logical, conversation, o.instance.value, f.key, o.parts[f.key], l)
    ensures var p, r := o.parts[f.key], ApplyFrame(o, f);
            && (r.advanced <==> Follows(o, f) && WellFormed(f) && p.attempt.None? && Fits(p, f))
            && (r.advanced ==> r.overlay.parts[f.key].text == p.text + f.content)
            && (Follows(o, f) && WellFormed(f) && p.attempt.Some? ==> f.key !in r.overlay.parts && r.gap)
            && (forall k :: k != f.key ==> (k in r.overlay.parts <==> k in o.parts))
            && (forall k :: k != f.key && k in o.parts ==> r.overlay.parts[k] == o.parts[k])
  {
    hide ByteLen;
  }

  /** A frame of its part's own lineage advances the text exactly when it is the next revision and starts at the
      code point where the held text ends; the held text then ends where the frame does. */
  lemma FrameAdvancesIff(logical: Logical, conversation: string, o: Overlay, f: Frame, i: nat, j: nat)
    requires Inv(logical, conversation, o) && o.instance == Some(f.instance) && f.instance != ""
    requires Streams(f.key.kind) && f.key in o.parts && f.revision >= 0 && !Mixes(logical, conversation, o, f)
    requires SliceOf(logical(LineageOf(conversation, f), f.key), i, j, f) && i < j
    ensures var p, t := o.parts[f.key], logical(LineageOf(conversation, f), f.key);
            && (ApplyFrame(o, f).advanced <==>
                  && (p.attempt == None || p.attempt == Some(f.attempt))
                  && f.revision > p.revision && (p.revision >= 0 ==> f.revision == p.revision + 1)
                  && i == |p.text|)
            && (ApplyFrame(o, f).advanced ==> ApplyFrame(o, f).overlay.parts[f.key].text == t[..j])
  {
    var t, p := logical(LineageOf(conversation, f), f.key), o.parts[f.key];
    if p.attempt == None || p.attempt == Some(f.attempt) {
      assert Along(t, p);
      assert p.text == t[..|p.text|];
      ByteOffsetsAreInjective(t, i, |p.text|);
      PartStaysHeld(t, p.(attempt := Some(f.attempt)), f, i, j);
    }
  }

  /** A frame of its part's own lineage is dropped in silence exactly when it says nothing new: an old revision, or
      the next one over text already held. Anything else that does not advance asks for a resync. */
  lemma GapIff(logical: Logical, conversation: string, o: Overlay, f: Frame, i: nat, j: nat)
    requires Inv(logical, conversation, o) && o.instance == Some(f.instance) && f.instance != ""
    requires Streams(f.key.kind) && f.key in o.parts && f.revision >= 0 && !Mixes(logical, conversation, o, f)
    requires SliceOf(logical(LineageOf(conversation, f), f.key), i, j, f) && i < j
    ensures var p, r := o.parts[f.key], ApplyFrame(o, f);
            !r.advanced && !r.gap <==>
              && (p.attempt == None || p.attempt == Some(f.attempt))
              && (f.revision <= p.revision ||
                  ((p.revision >= 0 ==> f.revision == p.revision + 1) && j <= |p.text|))
    ensures var p, r := o.parts[f.key], ApplyFrame(o, f);
            && (!r.advanced && !r.gap ==>
                  r.overlay.parts[f.key] == p.(attempt := Some(f.attempt), revision := Max(p.revision, f.revision)))
            && (r.gap && f.key in r.overlay.parts ==> r.overlay.parts[f.key] == p.(attempt := Some(f.attempt)))
            && (r.gap && f.key !in r.overlay.parts ==> p.attempt.Some? && p.attempt.value != f.attempt)
  {
    var t, p := logical(LineageOf(conversation, f), f.key), o.parts[f.key];
    if p.attempt == None || p.attempt == Some(f.attempt) {
      assert Along(t, p);
      OffsetsOf(t, p, f, i, j);
    }
  }

  /** Byte offsets of a slice compare as its positions do. */
  lemma OffsetsOf(t: string, p: Part, f: Frame, i: nat, j: nat)
    requires Along(t, p) && SliceOf(t, i, j, f) && i < j
    ensures f.offset < p.bytes <==> i < |p.text|
    ensures f.offset == p.bytes <==> i == |p.text|
    ensures f.offset + ByteLen(f.content) <= p.bytes <==> j <= |p.text|
  {
    var n := |p.text|;
    assert p.text == t[..n];
    ByteOffsetsAreInjective(t, i, n);
    ByteOffsetsAreInjective(t, n, i);
    ByteOffsetsAreInjective(t, j, n);
    ByteOffsetsAreInjective(t, n, j);
    assert t[..i] + t[i..j] == t[..j];
    ByteLenConcat(t[..i], t[i..j]);
  }

  /** A frame of another instance changes nothing; one that says nothing only makes the panel follow its instance. */
  lemma IgnoredFrame(o: Overlay, f: Frame)
    requires !(Follows(o, f) && WellFormed(f))
    ensures var r := ApplyFrame(o, f);
            && !r.advanced && !r.gap
            && r.overlay == if Follows(o, f) then o.(instance := Some(f.instance)) else o
  {
  }

  /** The first durable entry of the message, at `n`, has this text of the kind; with no such entry it is empty. */
  ghost predicate FloorText(durable: seq<Floor>, key: Key, n: nat, base: string)
  {
    && n <= |durable| && (forall i :: 0 <= i < n ==> durable[i].id != key.message)
    && if n == |durable| then base == ""
       else
         && durable[n].id == key.message
         && base == OrEmpty(if key.kind == Reasoning then durable[n].reasoning else durable[n].text)
  }

  lemma {:induction false} BaseIsFloorText(durable: seq<Floor>, key: Key, n: nat, base: string)
    requires FloorText(durable, key, n, base)
    ensures DurableBase(durable, key) == base
    decreases n
  {
    if n > 0 {
      assert durable[0].id != key.message;
      BaseIsFloorText(durable[1..], key, n - 1, base);
    }
  }

  /** MAIN: the first frame of a part advances if and only if it starts where the message's durable text ends, whatever
      its revision; the part then holds that text and the frame's. Otherwise it is silent if and only if it is part of
      what is durable. */
  lemma FirstFrameIff(o: Overlay, f: Frame, n: nat, base: string)
    requires Follows(o, f) && WellFormed(f) && f.key !in o.parts && FloorText(o.durable, f.key, n, base)
    ensures var r := ApplyFrame(o, f);
            && (r.advanced <==> f.offset == ByteLen(base))
            && (r.advanced ==>
                  r.overlay.parts == o.parts[f.key := Part(base + f.content, ByteLen(base + f.content),
                                                           Some(f.attempt), f.revision)])
            && (!r.advanced && !r.gap <==> f.offset + ByteLen(f.content) <= ByteLen(base))
            && (!r.advanced ==> f.key in r.overlay.parts && r.overlay.parts[f.key].text == base)
            && r.overlay.instance == Some(f.instance)
  {
    hide ByteLen, DurableBase;
    BaseIsFloorText(o.durable, f.key, n, base);
    ByteLenConcat(base, f.content);
    NonEmptyBytes(f.content);
  }

  /** Consecutive slices of one text from position `i` on, in consecutive revisions after `revision`. */
  ghost predicate Consecutive(t: string, key: Key, lineage: Lineage, fs: seq<Frame>, i: nat, revision: int)
    decreases |fs|
  {
    fs == [] ||
    (var f := fs[0];
     && f.key == key && f.instance == lineage.instance && f.attempt == lineage.attempt && WellFormed(f)
     && f.revision == revision + 1 && i + |f.content| <= |t| && SliceOf(t, i, i + |f.content|, f)
     && Consecutive(t, key, lineage, fs[1..], i + |f.content|, f.revision))
  }

  function Applied(o: Overlay, fs: seq<Frame>): (p: Overlay)
    decreases |fs|
  {
    if fs == [] then o else Applied(ApplyFrame(o, fs[0]).overlay, fs[1..])
  }

  function Content(fs: seq<Frame>): (s: string)
    decreases |fs|
  {
    if fs == [] then "" else fs[0].content + Content(fs[1..])
  }

  /** The next slice of the part's text in the next revision. */
  lemma NextFrameArrives(t: string, o: Overlay, f: Frame, lineage: Lineage, p: Part)
    requires lineage.instance != "" && o.instance == Some(lineage.instance) && p.revision >= 0
    requires f.key in o.parts && o.parts[f.key] == p && Along(t, p)
    requires p.attempt == None || p.attempt == Some(lineage.attempt)
    requires f.instance == lineage.instance && f.attempt == lineage.attempt && WellFormed(f)
    requires f.revision == p.revision + 1 && |p.text| + |f.content| <= |t|
    requires SliceOf(t, |p.text|, |p.text| + |f.content|, f)
    ensures var o' := ApplyFrame(o, f).overlay;
            && o'.instance == o.instance && f.key in o'.parts
            && (forall k :: k != f.key && k in o.parts ==> k in o'.parts && o'.parts[k] == o.parts[k])
            && var p' := o'.parts[f.key];
               && p'.text == p.text + f.content && p'.revision == f.revision && p'.attempt == Some(f.attempt)
               && Along(t, p')
  {
    hide ByteLen;
    PartStaysHeld(t, p.(attempt := Some(f.attempt)), f, |p.text|, |p.text| + |f.content|);
    assert p.bytes == f.offset by { assert t[..|p.text|] == p.text; }
  }

  /** MAIN: frames that arrive in order and without loss, after what is held or durable, are all shown. */
  lemma {:induction false} InOrderFramesArrive(t: string, o: Overlay, fs: seq<Frame>, lineage: Lineage, p: Part)
    requires lineage.instance != "" && o.instance == Some(lineage.instance) && fs != [] && p.revision >= 0
    requires fs[0].key in o.parts && o.parts[fs[0].key] == p && Along(t, p)
    requires p.attempt == None || p.attempt == Some(lineage.attempt)
    requires Consecutive(t, fs[0].key, lineage, fs, |p.text|, p.revision)
    ensures var key, q := fs[0].key, Applied(o, fs);
            && key in q.parts && q.parts[key].text == p.text + Content(fs) && Along(t, q.parts[key])
            && (forall k :: k != key && k in o.parts ==> k in q.parts && q.parts[k] == o.parts[k])
    decreases |fs|
  {
    hide ByteLen, ApplyFrame, Along;
    var f, o' := fs[0], ApplyFrame(o, fs[0]).overlay;
    NextFrameArrives(t, o, f, lineage, p);
    var p' := o'.parts[f.key];
    if |fs| == 1 {
      assert Content(fs) == f.content + "" == f.content;
      assert Applied(o', fs[1..]) == o';
    } else {
      InOrderFramesArrive(t, o', fs[1..], lineage, p');
      assert p.text + (f.content + Content(fs[1..])) == p'.text + Content(fs[1..]);
    }
  }

  // ------------------------------------------------------------ a mixed text

  const OneKey := Key("m", Prose)

  /** Attempt 1 of a message says "abc", every other attempt "xyz". */
  function TwoAttempts(): (logical: Logical) { (l: Lineage, k: Key) => if l.attempt == 1 then "abc" else "xyz" }

  function OneSnapshot(text: string, attempt: int): (m: Message)
  {
    Resync(Snapshot("i", [SnapPart(OneKey, text, 2, attempt, 3)]))
  }

  function HoldingOne(p: Part): (v: View) { View(Overlay(Some("i"), map[OneKey := p], []), "s") }

  const LateFrame := Frame("i", OneKey, 1, 4, 2, "c")

  const Untouched := View(Overlay(None, map[], []), "s")

  /** A snapshot of one attempt, a snapshot of another that diverges, and a late frame of the first. */
  function MixingRun(): (ms: seq<Message>)
  {
    [OneSnapshot("ab", 1), OneSnapshot("xy", 2), Live(LateFrame)]
  }

  lemma OneSnapshotIs(v: View, text: string, attempt: int)
    requires v.overlay.instance == None || v.overlay.instance == Some("i")
    ensures Receive(v, OneSnapshot(text, attempt)).overlay.parts ==
            ApplySnapPart(v.overlay.parts, SnapPart(OneKey, text, 2, attempt, 3))
  {
    hide ApplySnapPart;
    var ss := [SnapPart(OneKey, text, 2, attempt, 3)];
    assert ss[..0] == [];
    assert ApplySnapParts(v.overlay.parts, []) == v.overlay.parts;
  }

  const FirstHeld := HoldingOne(Part("ab", 2, Some(1), 3))
  const Diverged := HoldingOne(Part("xy", 2, None, 3))
  const Mixed := HoldingOne(Part("xyc", 3, Some(1), 4))

  lemma FirstSnapshot()
    ensures Receive(Untouched, OneSnapshot("ab", 1)) == FirstHeld
    ensures Drawn(TwoAttempts(), Untouched, OneSnapshot("ab", 1))
  {
    AsciiBytes("ab");
    OneSnapshotIs(Untouched, "ab", 1);
    assert "abc"[..2] == "ab";
  }

  lemma SecondSnapshot()
    ensures Receive(FirstHeld, OneSnapshot("xy", 2)) == Diverged
    ensures Drawn(TwoAttempts(), FirstHeld, OneSnapshot("xy", 2))
  {
    AsciiBytes("xy");
    OneSnapshotIs(FirstHeld, "xy", 2);
    assert "ab"[0] == 'a' && "xy"[0] == 'x';
    assert "xyz"[..2] == "xy";
  }

  lemma TakeOver()
    ensures Receive(Diverged, Live(LateFrame)) == Mixed
    ensures Drawn(TwoAttempts(), Diverged, Live(LateFrame))
  {
    AsciiBytes("c");
    AsciiBytes("ab");
    assert "xy" + "c" == "xyc";
    var t := "abc";
    assert t[2..3] == "c" && t[..2] == "ab";
    assert SliceOf(t, 2, 3, LateFrame);
    assert TwoAttempts()(LineageOf("s", LateFrame), OneKey) == t;
  }

  /** The late frame takes over the diverged text: what is held is no attempt's text at all. */
  lemma LateFrameMixesAttempts()
    ensures Sound(TwoAttempts(), Untouched) && AllDrawn(TwoAttempts(), Untouched, MixingRun())
    ensures Run(Untouched, MixingRun()).overlay.parts == map[OneKey := Part("xyc", 3, Some(1), 4)]
    ensures forall l :: !("xyc" <= TwoAttempts()(l, OneKey))
  {
    hide Receive, Drawn;
    FirstSnapshot();
    SecondSnapshot();
    TakeOver();
    var ms, none: seq<Message> := MixingRun(), [];
    assert ms[..2] == [ms[0], ms[1]] && [ms[0], ms[1]][..1] == [ms[0]] && [ms[0]][..0] == none;
    assert Run(Untouched, none) == Untouched && Run(Untouched, [ms[0]]) == Receive(Untouched, ms[0]);
    assert AllDrawn(TwoAttempts(), Untouched, none);
    assert AllDrawn(TwoAttempts(), Untouched, [ms[0]]);
    assert AllDrawn(TwoAttempts(), Untouched, [ms[0], ms[1]]);
    assert "xyc"[0] == 'x' && "xyc"[2] == 'c' && "xyz"[2] == 'z' && "abc"[0] == 'a';
  }
}

/**
 The panel's live state (apps/vscode/media/chat.js), as it runs: applying frames and snapshots in place, and merging
 the overlay into every entry of the durable transcript.
 */
module LiveTranscript {
  import opened Text
  import opened LiveOverlay
  import opened EntryPieces

  class Panel {
    var instance: Option<string>
    var liveParts: map<Key, Part>
    var lastDurable: seq<Entry>
    var gaps: nat

    constructor ()
      ensures State() == Overlay(None, map[], []) && gaps == 0
    {
      instance, liveParts, lastDurable, gaps := None, map[], [], 0;
    }

    ghost function State(): (o: Overlay)
      reads this
    {
      Overlay(instance, liveParts, FloorsOf(lastDurable))
    }

    /** The durable floor of one part. */
    method LiveDurableBase(key: Key) returns (base: string)
      ensures base == DurableBase(FloorsOf(lastDurable), key)
    {
      ghost var floors := FloorsOf(lastDurable);
      for i := 0 to |lastDurable|
        invariant DurableBase(floors[i..], key) == DurableBase(floors, key)
      {
        assert floors[i] == FloorOf(lastDurable[i]);
        if lastDurable[i].id == key.message {
          return OrEmpty(if key.kind.Reasoning? then lastDurable[i].reasoning else lastDurable[i].text);
        }
        assert floors[i..][1..] == floors[i + 1..];
      }
      return "";
    }

    /** Apply one live frame; true when text advanced. */
    method OnFrame(f: Frame) returns (advanced: bool)
      modifies this`instance, this`liveParts, this`gaps
      ensures var r := ApplyFrame(old(State()), f);
              && State() == r.overlay && advanced == r.advanced
              && gaps == old(gaps) + (if r.gap then 1 else 0)
    {
      hide DurableBase, ByteLen, OnPart;
      advanced := false;
      if |f.instance| == 0 {
        return;
      }
      if instance.None? {
        instance := Some(f.instance);
      } else if f.instance != instance.value {
        return;
      }
      if f.key.kind.Discrete? || |f.content| == 0 || f.offset < 0 || f.revision < 0 {
        return;
      }
      if f.key !in liveParts {
        var base := LiveDurableBase(f.key);
        liveParts := liveParts[f.key := Part(base, ByteLen(base), None, -1)];
      }
      var part := liveParts[f.key];
      if part.attempt.Some? && part.attempt.value != f.attempt {
        liveParts := liveParts - {f.key};
        gaps := gaps + 1;
        return;
      }
      advanced := OnOwnFrame(f, part.(attempt := Some(f.attempt)));
    }

    /** A frame of the part's own attempt. */
    method OnOwnFrame(f: Frame, part: Part) returns (advanced: bool)
      modifies this`liveParts, this`gaps
      ensures var r := OnPart(part, f);
              && liveParts == old(liveParts)[f.key := r.part]
              && advanced == r.advanced
              && gaps == old(gaps) + (if r.gap then 1 else 0)
    {
      hide ByteLen;
      advanced := false;
      if f.revision <= part.revision {
        liveParts := liveParts[f.key := part];
        return;
      }
      if part.revision >= 0 && f.revision > part.revision + 1 {
        liveParts, gaps := liveParts[f.key := part], gaps + 1;
        return;
      }
      var contentBytes := ByteLen(f.content);
      if f.offset > part.bytes {
        liveParts, gaps := liveParts[f.key := part], gaps + 1;
        return;
      }
      if f.offset < part.bytes {
        if f.offset + contentBytes <= part.bytes {
          liveParts := liveParts[f.key := part.(revision := f.revision)];
          return;
        }
        liveParts, gaps := liveParts[f.key := part], gaps + 1;
        return;
      }
      liveParts := liveParts[f.key := part.(text := part.text + f.content, bytes := part.bytes + contentBytes,
                                           revision := f.revision)];
      advanced := true;
    }

    /** Reconcile an authoritative snapshot. */
    method OnSnapshot(s: Snapshot)
      modifies this`instance, this`liveParts
      ensures State() == ApplySnapshot(old(State()), s)
    {
      hide Reconcile;
      if |s.instance| > 0 {
        if instance.Some? && instance.value != s.instance {
          liveParts := map[];
        }
        instance := Some(s.instance);
      }
      ghost var adopted := Adopt(old(State()), s.instance);
      assert State() == adopted;
      for i := 0 to |s.parts|
        invariant instance == adopted.instance && lastDurable == old(lastDurable)
        invariant liveParts == ApplySnapParts(adopted.parts, s.parts[..i])
      {
        var p := s.parts[i];
        assert s.parts[..i + 1][..i] == s.parts[..i];
        if p.key.kind.Discrete? {
          continue;
        }
        if p.key !in liveParts {
          if SnapBytes(p) > 0 {
            liveParts := liveParts[p.key := Part(p.text, SnapBytes(p), Some(p.attempt), p.revision)];
          }
          continue;
        }
        liveParts := liveParts[p.key := Reconcile(liveParts[p.key], p)];
      }
      assert s.parts[..|s.parts|] == s.parts;
    }

    /** Show another conversation. */
    method OnSwitch()
      modifies this`liveParts, this`lastDurable
      ensures State() == Switched(old(State()))
    {
      liveParts, lastDurable := map[], [];
    }

    method MergedField(key: Key, base: string) returns (text: string)
      modifies this`liveParts
      ensures text == MergedText(old(liveParts), key, base)
      ensures liveParts == MergedParts(old(liveParts), key, base)
    {
      if key !in liveParts {
        return base;
      }
      var held := liveParts[key];
      if base <= held.text {
        return held.text;
      }
      liveParts := liveParts[key := held.(text := base, bytes := ByteLen(base), attempt := None)];
      return base;
    }

    /** Merge the overlay into the durable entries. */
    method WithLiveOverlay(entries: seq<Entry>) returns (out: seq<Entry>)
      modifies this`liveParts
      ensures liveParts == MergeFloor(old(liveParts), FloorsOf(entries))
      ensures |out| == |entries|
      ensures forall i :: 0 <= i < |out| ==> Shown(old(liveParts), entries, i, out[i])
    {
      hide Shown, MergeEntry, MergeFloor, MergedText, MergedParts, Merged, FloorsOf;
      var hasAny := false;
      for scan := 0 to |entries|
        invariant if hasAny then !Untouched(liveParts, entries) else Untouched(liveParts, entries[..scan])
      {
        if Key(entries[scan].id, Prose) in liveParts || Key(entries[scan].id, Reasoning) in liveParts {
          hasAny := true;
          break;
        }
      }
      if !hasAny {
        assert entries[..|entries|] == entries;
        UntouchedIsUnchanged(liveParts, entries);
        return entries;
      }
      out := [];
      ghost var floors := FloorsOf(entries);
      MergeNothing(liveParts);
      for i := 0 to |entries|
        invariant |out| == i
        invariant liveParts == MergeFloor(old(liveParts), floors[..i])
        invariant forall n :: 0 <= n < i ==> Shown(old(liveParts), entries, n, out[n])
      {
        var e := entries[i];
        MergeNext(old(liveParts), entries, i);
        ghost var before := liveParts;
        var text := MergedField(Key(e.id, Prose), OrEmpty(e.text));
        var reasoning := MergedField(Key(e.id, Reasoning), OrEmpty(e.reasoning));
        assert liveParts == MergeEntry(before, FloorOf(e)) by { MergeEntryIs(before, FloorOf(e)); }
        var m := MergeOne(e, text, reasoning);
        ShownIf(old(liveParts), entries, i, text, reasoning, m);
        out := out + [m];
      }
      assert floors[..|entries|] == floors;
    }
  }

  /** What the panel has for one entry: the live text over its durable buckets, which it never shortens, with pieces
      that follow. */
  ghost predicate Shown(parts: map<Key, Part>, entries: seq<Entry>, i: nat, m: Entry)
    requires i < |entries|
  {
    var e, p := entries[i], MergeFloor(parts, FloorsOf(entries)[..i]);
    var text := MergedText(p, Key(e.id, Prose), BucketOf(e, Prose));
    var reasoning := MergedText(p, Key(e.id, Reasoning), BucketOf(e, Reasoning));
    && BucketOf(e, Prose) <= text == BucketOf(m, Prose)
    && BucketOf(e, Reasoning) <= reasoning == BucketOf(m, Reasoning)
    && if Untouched(parts, entries) then m == e else Merged(e, text, reasoning, m)
  }

  /** What the panel renders of a merged entry is its live text and reasoning if and only if the entry is left without
      ordered pieces, or each bucket was touched or spelled by ordered pieces before. */
  lemma ShownRendersIff(parts: map<Key, Part>, entries: seq<Entry>, i: nat, m: Entry)
    requires i < |entries| && Shown(parts, entries, i, m) && Coherent(entries[i]) && !Untouched(parts, entries)
    ensures var e, p := entries[i], MergeFloor(parts, FloorsOf(entries)[..i]);
            var text := MergedText(p, Key(e.id, Prose), BucketOf(e, Prose));
            var reasoning := MergedText(p, Key(e.id, Reasoning), BucketOf(e, Reasoning));
            (Said(Rendered(m), Prose) == text && Said(Rendered(m), Reasoning) == reasoning) <==>
              LeavesUnlisted(e, text, reasoning) || (Accounted(e, Prose, text) && Accounted(e, Reasoning, reasoning))
  {
    hide Merged, MergeFloor, MergedText, LeavesUnlisted, Accounted, Rendered;
    var e, p := entries[i], MergeFloor(parts, FloorsOf(entries)[..i]);
    MergeRendersIff(e, MergedText(p, Key(e.id, Prose), BucketOf(e, Prose)),
                    MergedText(p, Key(e.id, Reasoning), BucketOf(e, Reasoning)), m);
  }

  lemma ShownIf(parts: map<Key, Part>, entries: seq<Entry>, i: nat, text: string, reasoning: string, m: Entry)
    requires i < |entries| && Merged(entries[i], text, reasoning, m) && !Untouched(parts, entries)
    requires var e, p := entries[i], MergeFloor(parts, FloorsOf(entries)[..i]);
             && text == MergedText(p, Key(e.id, Prose), OrEmpty(e.text))
             && reasoning == MergedText(MergedParts(p, Key(e.id, Prose), OrEmpty(e.text)),
                                        Key(e.id, Reasoning), OrEmpty(e.reasoning))
    ensures Shown(parts, entries, i, m)
  {
    hide Tracks, Others, Grows, Extends, MergeFloor, Untouched;
  }

  lemma MergeNothing(parts: map<Key, Part>)
    ensures MergeFloor(parts, []) == parts
  {
  }

  lemma MergeNext(parts: map<Key, Part>, entries: seq<Entry>, i: nat)
    requires i < |entries|
    ensures MergeFloor(parts, FloorsOf(entries)[..i + 1]) ==
            MergeEntry(MergeFloor(parts, FloorsOf(entries)[..i]), FloorOf(entries[i]))
  {
    hide MergeEntry;
    assert FloorsOf(entries)[..i + 1][..i] == FloorsOf(entries)[..i];
  }

  lemma MergeEntryIs(parts: map<Key, Part>, f: Floor)
    ensures MergeEntry(parts, f) ==
            MergedParts(MergedParts(parts, Key(f.id, Prose), OrEmpty(f.text)),
                        Key(f.id, Reasoning), OrEmpty(f.reasoning))
  {
  }

  /** No part of the overlay belongs to any of these entries. */
  ghost predicate Untouched(parts: map<Key, Part>, entries: seq<Entry>)
  {
    forall i :: 0 <= i < |entries| ==>
      Key(entries[i].id, Prose) !in parts && Key(entries[i].id, Reasoning) !in parts
  }

  lemma {:induction false} UntouchedFloor(parts: map<Key, Part>, entries: seq<Entry>, k: nat)
    requires Untouched(parts, entries) && k <= |entries|
    ensures MergeFloor(parts, FloorsOf(entries)[..k]) == parts
  {
    if k > 0 {
      var floors := FloorsOf(entries);
      UntouchedFloor(parts, entries, k - 1);
      assert floors[..k][..k - 1] == floors[..k - 1];
      assert floors[k - 1].id == entries[k - 1].id;
    }
  }

  lemma UntouchedIsUnchanged(parts: map<Key, Part>, entries: seq<Entry>)
    requires Untouched(parts, entries)
    ensures MergeFloor(parts, FloorsOf(entries)) == parts
    ensures forall i :: 0 <= i < |entries| ==> Shown(parts, entries, i, entries[i])
  {
    hide Merged, MergeFloor;
    UntouchedFloor(parts, entries, |entries|);
    assert FloorsOf(entries)[..|entries|] == FloorsOf(entries);
    forall i | 0 <= i < |entries| ensures Shown(parts, entries, i, entries[i]) {
      UntouchedFloor(parts, entries, i);
    }
  }
}

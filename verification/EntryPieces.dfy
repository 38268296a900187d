/**
 The ordered pieces of a transcript entry (apps/vscode/media/chat.js): how they follow its text and reasoning buckets
 when live output changes them, and what the panel renders of the result.
 */
module EntryPieces {
  import opened Text
  import opened LiveOverlay

  /** One ordered piece of an entry: text of some kind, or a tool. */
  datatype Piece = Piece(kind: PartKind, text: string)

  /** A transcript entry: its buckets, and its ordered pieces if it has any. */
  datatype Entry = Entry(id: string, text: Option<string>, reasoning: Option<string>, summary: Option<string>,
                         tools: seq<string>, pieces: seq<Piece>)

  function FloorOf(e: Entry): (f: Floor) { Floor(e.id, e.text, e.reasoning) }

  function FloorsOf(es: seq<Entry>): (fs: seq<Floor>)
    ensures |fs| == |es|
  {
    seq(|es|, i requires 0 <= i < |es| => FloorOf(es[i]))
  }

  /** The text that the pieces of one kind spell. */
  function Said(pieces: seq<Piece>, kind: PartKind): (s: string)
  {
    if pieces == [] then ""
    else
      var last := pieces[|pieces| - 1];
      if last.kind == kind then Said(pieces[..|pieces| - 1], kind) + last.text else Said(pieces[..|pieces| - 1], kind)
  }

  /** The pieces of other kinds, in order. */
  function Without(pieces: seq<Piece>, kind: PartKind): (ps: seq<Piece>)
  {
    if pieces == [] then []
    else
      var last := pieces[|pieces| - 1];
      if last.kind == kind then Without(pieces[..|pieces| - 1], kind)
      else Without(pieces[..|pieces| - 1], kind) + [last]
  }

  ghost predicate Absent(pieces: seq<Piece>, kind: PartKind)
  {
    forall i :: 0 <= i < |pieces| ==> pieces[i].kind != kind
  }

  lemma {:induction false} AbsentSaysNothing(pieces: seq<Piece>, kind: PartKind)
    requires Absent(pieces, kind)
    ensures Said(pieces, kind) == "" && Without(pieces, kind) == pieces
  {
    if pieces != [] {
      AbsentSaysNothing(pieces[..|pieces| - 1], kind);
    }
  }

  lemma PieceAtEnd(pieces: seq<Piece>, p: Piece, kind: PartKind)
    ensures Said(pieces + [p], kind) == if p.kind == kind then Said(pieces, kind) + p.text else Said(pieces, kind)
    ensures Without(pieces + [p], kind) == if p.kind == kind then Without(pieces, kind) else Without(pieces, kind) + [p]
    ensures Absent(pieces + [p], kind) <==> Absent(pieces, kind) && p.kind != kind
  {
    assert (pieces + [p])[..|pieces|] == pieces;
    assert (pieces + [p])[|pieces|] == p;
    assert forall i :: 0 <= i < |pieces| ==> pieces[i] == (pieces + [p])[i];
  }

  lemma NothingSaid(kind: PartKind)
    ensures Said([], kind) == "" && Without([], kind) == [] && Absent([], kind)
  {
  }

  /** Pieces of one kind do not change what another kind spells. */
  lemma {:induction false} SaidOfRest(pieces: seq<Piece>, kind: PartKind, other: PartKind)
    requires kind != other
    ensures Said(Without(pieces, kind), other) == Said(pieces, other)
    ensures Absent(Without(pieces, kind), other) <==> Absent(pieces, other)
  {
    if pieces != [] {
      var init, last := pieces[..|pieces| - 1], pieces[|pieces| - 1];
      SaidOfRest(init, kind, other);
      assert pieces == init + [last];
      PieceAtEnd(init, last, kind);
      PieceAtEnd(init, last, other);
      PieceAtEnd(Without(init, kind), last, other);
    }
  }

  /** What a rebuild promises: the kind now spells `after`, and every other piece keeps its order and content. */
  ghost predicate Rebuilt(pieces: seq<Piece>, kind: PartKind, after: string, out: seq<Piece>)
  {
    Said(out, kind) == after && Without(out, kind) == Without(pieces, kind)
  }

  /** Every piece keeps its place and content, the last one may grow, and new ones come after. */
  ghost predicate Extends(pieces: seq<Piece>, out: seq<Piece>)
  {
    pieces == [] ||
    (var n := |pieces| - 1;
     && n < |out| && pieces[..n] == out[..n]
     && pieces[n].kind == out[n].kind && pieces[n].text <= out[n].text)
  }

  lemma ExtendsItself(pieces: seq<Piece>)
    ensures Extends(pieces, pieces)
  {
  }

  lemma ExtendsTransitive(a: seq<Piece>, b: seq<Piece>, c: seq<Piece>)
    requires Extends(a, b) && Extends(b, c)
    ensures Extends(a, c)
  {
    if a != [] {
      var n, m := |a| - 1, |b| - 1;
      assert a[..n] == b[..n];
      if n < m {
        assert b[..m][..n] == c[..m][..n] && b[..m][n] == c[..m][n];
      }
    }
  }

  /** The pieces of one kind follow its bucket from `before` to `after`. */
  method RebuildPieces(pieces: seq<Piece>, kind: PartKind, before: string, after: string) returns (out: seq<Piece>)
    ensures Without(out, kind) == Without(pieces, kind)
    ensures Absent(pieces, kind) || Said(pieces, kind) == before ==> Rebuilt(pieces, kind, after, out)
    ensures Absent(out, kind) <==> after == ""
    ensures before < after || Absent(pieces, kind) ==> Extends(pieces, out)
    ensures !(before < after) && !Absent(pieces, kind) ==> out == Replaced(pieces, kind, after)
  {
    hide Said, Without, Absent, Extends, Replaced;
    var hadKind := HasKind(pieces, kind);
    if !hadKind {
      AbsentSaysNothing(pieces, kind);
      ExtendsItself(pieces);
      out := pieces;
      if |after| > 0 {
        out := OpenPiece(pieces, Piece(kind, after));
      }
      return;
    }
    if before <= after && |after| > |before| {
      out := AppendPiece(pieces, kind, after[|before|..]);
      assert before + after[|before|..] == after;
      return;
    }
    out := ReplacePieces(pieces, kind, after);
  }

  method HasKind(pieces: seq<Piece>, kind: PartKind) returns (had: bool)
    ensures had <==> !Absent(pieces, kind)
  {
    had := false;
    for k := 0 to |pieces|
      invariant !had && Absent(pieces[..k], kind)
    {
      if pieces[k].kind == kind {
        return true;
      }
      assert pieces[..k + 1] == pieces[..k] + [pieces[k]];
    }
    assert pieces[..|pieces|] == pieces;
  }

  /** A new piece at the end. */
  method OpenPiece(pieces: seq<Piece>, p: Piece) returns (out: seq<Piece>)
    ensures Rebuilt(pieces, p.kind, Said(pieces, p.kind) + p.text, out)
    ensures !Absent(out, p.kind) && Extends(pieces, out)
  {
    hide Said, Without, Absent;
    out := pieces + [p];
    PieceAtEnd(pieces, p, p.kind);
  }

  method AppendPiece(pieces: seq<Piece>, kind: PartKind, delta: string) returns (out: seq<Piece>)
    ensures Rebuilt(pieces, kind, Said(pieces, kind) + delta, out)
    ensures !Absent(out, kind) && Extends(pieces, out)
  {
    hide Said, Without, Absent;
    if |pieces| > 0 && pieces[|pieces| - 1].kind == kind {
      var init, last := pieces[..|pieces| - 1], pieces[|pieces| - 1];
      out := init + [Piece(kind, last.text + delta)];
      PieceAtEnd(init, Piece(kind, last.text + delta), kind);
      PieceAtEnd(init, last, kind);
      assert pieces == init + [last];
    } else {
      out := OpenPiece(pieces, Piece(kind, delta));
    }
  }

  lemma {:induction false} Together(a: seq<Piece>, b: seq<Piece>, kind: PartKind)
    ensures Said(a + b, kind) == Said(a, kind) + Said(b, kind)
    ensures Without(a + b, kind) == Without(a, kind) + Without(b, kind)
  {
    hide Said, Without, Absent;
    if b == [] {
      assert a + b == a;
      NothingSaid(kind);
    } else {
      var init, last := b[..|b| - 1], b[|b| - 1];
      Together(a, init, kind);
      assert a + b == (a + init) + [last] && b == init + [last];
      PieceAtEnd(a + init, last, kind);
      PieceAtEnd(init, last, kind);
    }
  }

  lemma OnePiece(p: Piece, kind: PartKind)
    ensures Said([p], kind) == if p.kind == kind then p.text else ""
    ensures Without([p], kind) == if p.kind == kind then [] else [p]
    ensures Absent([p], kind) <==> p.kind != kind
  {
    NothingSaid(kind);
    PieceAtEnd([], p, kind);
    assert [] + [p] == [p];
  }

  /** Where the first piece of a kind stands, or the end. */
  function FirstOf(pieces: seq<Piece>, kind: PartKind): (f: nat)
    ensures f <= |pieces| && Absent(pieces[..f], kind) && (f < |pieces| ==> pieces[f].kind == kind)
  {
    if pieces == [] then 0
    else
      var f := FirstOf(pieces[..|pieces| - 1], kind);
      assert pieces[..|pieces| - 1][..f] == pieces[..f];
      if f == |pieces| - 1 && pieces[f].kind != kind then |pieces| else f
  }

  function NewPiece(kind: PartKind, text: string): (ps: seq<Piece>) { if text == "" then [] else [Piece(kind, text)] }

  /** One piece, if the text is not empty, where the first of its kind stood, and no other of that kind. */
  function Replaced(pieces: seq<Piece>, kind: PartKind, after: string): (out: seq<Piece>)
  {
    var f := FirstOf(pieces, kind);
    pieces[..f] + NewPiece(kind, after) + Without(pieces[f..], kind)
  }

  lemma {:induction false} NoneLeft(pieces: seq<Piece>, kind: PartKind)
    ensures Absent(Without(pieces, kind), kind)
  {
    hide Absent;
    if pieces == [] {
      NothingSaid(kind);
    } else {
      NoneLeft(pieces[..|pieces| - 1], kind);
      PieceAtEnd(Without(pieces[..|pieces| - 1], kind), pieces[|pieces| - 1], kind);
    }
  }

  lemma ReplacedSays(pieces: seq<Piece>, kind: PartKind, after: string)
    ensures Rebuilt(pieces, kind, after, Replaced(pieces, kind, after))
    ensures Absent(Replaced(pieces, kind, after), kind) <==> after == ""
  {
    hide Said, Without;
    var f := FirstOf(pieces, kind);
    var head, tail, piece := pieces[..f], pieces[f..], NewPiece(kind, after);
    assert pieces == head + tail;
    Together(head, tail, kind);
    Together(head + piece, Without(tail, kind), kind);
    Together(head, piece, kind);
    AbsentSaysNothing(head, kind);
    NoneLeft(tail, kind);
    AbsentSaysNothing(Without(tail, kind), kind);
    if after == "" {
      NothingSaid(kind);
    } else {
      OnePiece(Piece(kind, after), kind);
      assert Replaced(pieces, kind, after)[f] == Piece(kind, after);
    }
  }

  /** A divergence: the new text once, where the kind first stood. */
  method ReplacePieces(pieces: seq<Piece>, kind: PartKind, after: string) returns (out: seq<Piece>)
    ensures out == Replaced(pieces, kind, after)
    ensures Rebuilt(pieces, kind, after, out)
    ensures Absent(out, kind) <==> after == ""
  {
    hide Said, Without, Absent, Rebuilt;
    out := [];
    var replaced := false;
    ghost var f := FirstOf(pieces, kind);
    NothingSaid(kind);
    for i := 0 to |pieces|
      invariant out == if i <= f then pieces[..i] else pieces[..f] + NewPiece(kind, after) + Without(pieces[f..i], kind)
      invariant replaced <==> i > f && |after| > 0
    {
      if i >= f {
        assert pieces[f..i + 1] == pieces[f..i] + [pieces[i]];
        PieceAtEnd(pieces[f..i], pieces[i], kind);
      } else {
        NotBeforeFirst(pieces, kind, i);
      }
      if pieces[i].kind == kind {
        if !replaced && |after| > 0 {
          out := out + [Piece(kind, after)];
          replaced := true;
        }
        continue;
      }
      out := out + [pieces[i]];
    }
    assert pieces[f..|pieces|] == pieces[f..];
    if !replaced && |after| > 0 {
      out := out + [Piece(kind, after)];
    }
    assert f == |pieces| ==> pieces[f..] == [];
    ReplacedSays(pieces, kind, after);
  }

  lemma NotBeforeFirst(pieces: seq<Piece>, kind: PartKind, i: nat)
    requires i < FirstOf(pieces, kind)
    ensures pieces[i].kind != kind
  {
    assert pieces[..FirstOf(pieces, kind)][i] == pieces[i];
  }

  // ---------------------------------------------------------- whole entries

  function BucketOf(e: Entry, kind: PartKind): (s: string) { Bucket(FloorOf(e), kind) }

  /** The pieces of a kind, if there are any, spell its bucket. */
  ghost predicate CoherentIn(e: Entry, kind: PartKind)
  {
    Absent(e.pieces, kind) || Said(e.pieces, kind) == BucketOf(e, kind)
  }

  ghost predicate Coherent(e: Entry) { CoherentIn(e, Prose) && CoherentIn(e, Reasoning) }

  /** Everything that is neither prose nor reasoning. */
  function Others(pieces: seq<Piece>): (ps: seq<Piece>) { Without(Without(pieces, Prose), Reasoning) }

  /** The merge touches the bucket: it differs from `after`, or was not there. */
  predicate Changed(e: Entry, kind: PartKind, after: string)
  {
    (if kind.Reasoning? then e.reasoning else e.text) != Some(after)
  }

  /** The pieces of a kind follow its bucket: where they spelled it or there were none, they spell the new one, and
      they are gone only if it is empty; an untouched bucket's pieces stay. */
  ghost predicate Tracks(e: Entry, kind: PartKind, after: string, m: Entry)
  {
    if Changed(e, kind, after) then
      && (CoherentIn(e, kind) ==> Said(m.pieces, kind) == after)
      && (Absent(m.pieces, kind) <==> after == "")
    else
      Said(m.pieces, kind) == Said(e.pieces, kind) && (Absent(m.pieces, kind) <==> Absent(e.pieces, kind))
  }

  /** The bucket only grows, so its pieces need not be replaced. */
  ghost predicate Grows(e: Entry, kind: PartKind, after: string)
  {
    !Changed(e, kind, after) || BucketOf(e, kind) < after || Absent(e.pieces, kind)
  }

  /** The merged entry has the merged buckets, its pieces spell them wherever they spelled the old ones, tools and
      other pieces stay, and where buckets only grow so does the list of pieces. */
  ghost predicate Merged(e: Entry, text: string, reasoning: string, m: Entry)
  {
    && m.id == e.id && m.summary == e.summary && m.tools == e.tools
    && BucketOf(m, Prose) == text && BucketOf(m, Reasoning) == reasoning
    && Tracks(e, Prose, text, m) && Tracks(e, Reasoning, reasoning, m)
    && Others(m.pieces) == Others(e.pieces)
    && (!Changed(e, Prose, text) ==> Without(m.pieces, Reasoning) == Without(e.pieces, Reasoning))
    && (!Changed(e, Reasoning, reasoning) ==> Without(m.pieces, Prose) == Without(e.pieces, Prose))
    && (Grows(e, Prose, text) && Grows(e, Reasoning, reasoning) ==> Extends(e.pieces, m.pieces))
  }

  lemma RebuiltOther(pieces: seq<Piece>, kind: PartKind, out: seq<Piece>, other: PartKind)
    requires Without(out, kind) == Without(pieces, kind) && kind != other
    ensures Said(out, other) == Said(pieces, other)
    ensures Absent(out, other) <==> Absent(pieces, other)
  {
    SaidOfRest(out, kind, other);
    SaidOfRest(pieces, kind, other);
  }

  lemma {:induction false} WithoutCommutes(pieces: seq<Piece>, a: PartKind, b: PartKind)
    ensures Without(Without(pieces, a), b) == Without(Without(pieces, b), a)
  {
    if pieces != [] {
      var init, last := pieces[..|pieces| - 1], pieces[|pieces| - 1];
      WithoutCommutes(init, a, b);
      assert pieces == init + [last];
      PieceAtEnd(init, last, a);
      PieceAtEnd(init, last, b);
      PieceAtEnd(Without(init, a), last, b);
      PieceAtEnd(Without(init, b), last, a);
    }
  }

  /** The pieces follow one bucket if the merge changed it. */
  method FollowBucket(pieces: seq<Piece>, kind: PartKind, bucket: Option<string>, after: string)
    returns (out: seq<Piece>)
    ensures bucket == Some(after) ==> out == pieces
    ensures bucket != Some(after) ==>
              && (Absent(pieces, kind) || Said(pieces, kind) == OrEmpty(bucket) ==> Said(out, kind) == after)
              && (Absent(out, kind) <==> after == "")
    ensures Without(out, kind) == Without(pieces, kind)
    ensures bucket == Some(after) || OrEmpty(bucket) < after || Absent(pieces, kind) ==> Extends(pieces, out)
  {
    hide Said, Without, Absent, Extends, Replaced;
    if bucket == Some(after) {
      ExtendsItself(pieces);
      return pieces;
    }
    out := RebuildPieces(pieces, kind, OrEmpty(bucket), after);
  }

  method MergeOne(e: Entry, text: string, reasoning: string) returns (m: Entry)
    ensures Merged(e, text, reasoning, m)
  {
    hide Said, Without, Absent, Extends;
    if e.text == Some(text) && e.reasoning == Some(reasoning) {
      ExtendsItself(e.pieces);
      return e;
    }
    var pieces := FollowBucket(e.pieces, Prose, e.text, text);
    RebuiltOther(e.pieces, Prose, pieces, Reasoning);
    var out := FollowBucket(pieces, Reasoning, e.reasoning, reasoning);
    RebuiltOther(pieces, Reasoning, out, Prose);
    WithoutCommutes(pieces, Prose, Reasoning);
    WithoutCommutes(out, Prose, Reasoning);
    if Extends(e.pieces, pieces) && Extends(pieces, out) {
      ExtendsTransitive(e.pieces, pieces, out);
    }
    m := e.(text := Some(text), reasoning := Some(reasoning), pieces := out);
  }

  // ------------------------------------------------------------ what is rendered

  function Titled(kind: PartKind, bucket: Option<string>): (ps: seq<Piece>)
  {
    if OrEmpty(bucket) == "" then [] else [Piece(kind, bucket.value)]
  }

  function ToolPieces(tools: seq<string>): (ps: seq<Piece>)
    ensures |ps| == |tools|
  {
    seq(|tools|, i requires 0 <= i < |tools| => Piece(Discrete("tool"), tools[i]))
  }

  /** What an entry shows beside prose and reasoning when it has no ordered pieces. */
  function Unlisted(e: Entry): (ps: seq<Piece>) { Titled(Discrete("summary"), e.summary) + ToolPieces(e.tools) }

  /** The pieces the panel renders: the ordered ones, or else pieces made up from the buckets. */
  function Rendered(e: Entry): (ps: seq<Piece>)
  {
    if e.pieces != [] then e.pieces
    else
      Titled(Reasoning, e.reasoning) + Titled(Discrete("summary"), e.summary) + Titled(Prose, e.text)
      + ToolPieces(e.tools)
  }

  method EntryPartsOf(e: Entry) returns (ps: seq<Piece>)
    ensures ps == Rendered(e)
  {
    if |e.pieces| > 0 {
      return e.pieces;
    }
    var none: seq<Piece> := [];
    ps := PushBucket(none, Reasoning, e.reasoning);
    ps := PushBucket(ps, Discrete("summary"), e.summary);
    ps := PushBucket(ps, Prose, e.text);
    assert none + Titled(Reasoning, e.reasoning) == Titled(Reasoning, e.reasoning);
    ps := PushTools(ps, e.tools);
  }

  method PushBucket(ps: seq<Piece>, kind: PartKind, bucket: Option<string>) returns (out: seq<Piece>)
    ensures out == ps + Titled(kind, bucket)
  {
    out := ps;
    if OrEmpty(bucket) != "" {
      out := out + [Piece(kind, bucket.value)];
    }
  }

  method PushTools(ps: seq<Piece>, tools: seq<string>) returns (out: seq<Piece>)
    ensures out == ps + ToolPieces(tools)
  {
    out := ps;
    for t := 0 to |tools|
      invariant out == ps + ToolPieces(tools)[..t]
    {
      out := out + [Piece(Discrete("tool"), tools[t])];
    }
    assert ToolPieces(tools)[..|tools|] == ToolPieces(tools);
  }

  lemma TitledSays(titled: PartKind, bucket: Option<string>, kind: PartKind)
    ensures Said(Titled(titled, bucket), kind) == if titled == kind then OrEmpty(bucket) else ""
    ensures Without(Titled(titled, bucket), kind) == if titled == kind then [] else Titled(titled, bucket)
  {
    var none: seq<Piece> := [];
    NothingSaid(kind);
    if OrEmpty(bucket) != "" {
      PieceAtEnd(none, Piece(titled, bucket.value), kind);
      assert none + [Piece(titled, bucket.value)] == Titled(titled, bucket);
    }
  }

  /** Made-up pieces spell both buckets and show the rest. */
  lemma MadeUp(e: Entry)
    requires e.pieces == []
    ensures Said(Rendered(e), Prose) == BucketOf(e, Prose) && Said(Rendered(e), Reasoning) == BucketOf(e, Reasoning)
    ensures Others(Rendered(e)) == Unlisted(e)
  {
    hide Said, Without, Titled, ToolPieces;
    var r, u, p, t := Titled(Reasoning, e.reasoning), Titled(Discrete("summary"), e.summary), Titled(Prose, e.text),
                      ToolPieces(e.tools);
    ToolsSayNothing(e.tools, Prose);
    ToolsSayNothing(e.tools, Reasoning);
    MadeUpSays(e, Prose);
    MadeUpSays(e, Reasoning);
    assert Without(Rendered(e), Prose) == r + u + t;
    Together(r + u, t, Reasoning);
    Together(r, u, Reasoning);
    TitledSays(Reasoning, e.reasoning, Reasoning);
    TitledSays(Discrete("summary"), e.summary, Reasoning);
  }

  /** Made-up pieces are the buckets that are not empty, reasoning first and text last, and then every tool in order. */
  lemma MadeUpInOrder(e: Entry)
    requires e.pieces == []
    ensures var out, n := Rendered(e), |Rendered(e)| - |e.tools|;
            var r, u, p := OrEmpty(e.reasoning), OrEmpty(e.summary), OrEmpty(e.text);
            && n == (if r == "" then 0 else 1) + (if u == "" then 0 else 1) + (if p == "" then 0 else 1)
            && (forall t :: 0 <= t < |e.tools| ==> out[n + t] == Piece(Discrete("tool"), e.tools[t]))
            && (r != "" ==> out[0] == Piece(Reasoning, r))
            && (u != "" ==> out[if r == "" then 0 else 1] == Piece(Discrete("summary"), u))
            && (p != "" ==> out[n - 1] == Piece(Prose, p))
  {
  }

  lemma MadeUpSays(e: Entry, kind: PartKind)
    requires e.pieces == [] && Streams(kind)
    ensures Said(Rendered(e), kind) == BucketOf(e, kind)
    ensures Without(Rendered(e), kind) ==
            (if kind.Reasoning? then [] else Titled(Reasoning, e.reasoning)) + Titled(Discrete("summary"), e.summary)
            + (if kind.Prose? then [] else Titled(Prose, e.text)) + ToolPieces(e.tools)
  {
    hide Said, Without, Titled, ToolPieces;
    var r, u, p, t := Titled(Reasoning, e.reasoning), Titled(Discrete("summary"), e.summary), Titled(Prose, e.text),
                      ToolPieces(e.tools);
    Together(r + u + p, t, kind);
    Together(r + u, p, kind);
    Together(r, u, kind);
    TitledSays(Reasoning, e.reasoning, kind);
    TitledSays(Discrete("summary"), e.summary, kind);
    TitledSays(Prose, e.text, kind);
    ToolsSayNothing(e.tools, kind);
  }

  lemma ToolsSayNothing(tools: seq<string>, kind: PartKind)
    requires Streams(kind)
    ensures Said(ToolPieces(tools), kind) == "" && Without(ToolPieces(tools), kind) == ToolPieces(tools)
  {
    AbsentSaysNothing(ToolPieces(tools), kind);
  }

  /** What is rendered spells both buckets. */
  ghost predicate RendersBuckets(e: Entry)
  {
    Said(Rendered(e), Prose) == BucketOf(e, Prose) && Said(Rendered(e), Reasoning) == BucketOf(e, Reasoning)
  }

  /** No piece of the kind is left after the merge. */
  ghost predicate LeavesNone(e: Entry, kind: PartKind, after: string)
  {
    if Changed(e, kind, after) then after == "" else Absent(e.pieces, kind)
  }

  /** The merged entry has no ordered pieces. */
  ghost predicate LeavesUnlisted(e: Entry, text: string, reasoning: string)
  {
    LeavesNone(e, Prose, text) && LeavesNone(e, Reasoning, reasoning) && Others(e.pieces) == []
  }

  /** The bucket is touched by the merge, or ordered pieces already spell it. */
  ghost predicate Accounted(e: Entry, kind: PartKind, after: string)
  {
    Changed(e, kind, after) || Said(e.pieces, kind) == BucketOf(e, kind)
  }

  /** MAIN: what the panel renders of a merged entry spells both merged buckets if and only if the entry is left without
      ordered pieces, or each bucket was touched by the merge or spelled by ordered pieces before. Summary and tools
      stay rendered if and only if the merge does not turn an entry without ordered pieces into one with some. */
  lemma MergeRendersIff(e: Entry, text: string, reasoning: string, m: Entry)
    requires Merged(e, text, reasoning, m) && Coherent(e)
    ensures RendersBuckets(m) <==>
              LeavesUnlisted(e, text, reasoning) || (Accounted(e, Prose, text) && Accounted(e, Reasoning, reasoning))
    ensures Others(Rendered(m)) == Others(Rendered(e)) <==>
              (e.pieces == [] <==> LeavesUnlisted(e, text, reasoning)) || Unlisted(e) == []
  {
    hide Said, Without, Absent, Unlisted, Extends;
    NoPieces(e.pieces);
    NoPieces(m.pieces);
    assert m.pieces == [] <==> LeavesUnlisted(e, text, reasoning);
    assert Unlisted(m) == Unlisted(e) by { SameUnlisted(e, m); }
    if e.pieces == [] {
      MadeUp(e);
    }
    if m.pieces == [] {
      MadeUp(m);
    }
  }

  lemma NoPieces(pieces: seq<Piece>)
    ensures pieces == [] <==> Absent(pieces, Prose) && Absent(pieces, Reasoning) && Others(pieces) == []
  {
    if Absent(pieces, Prose) && Absent(pieces, Reasoning) {
      AbsentSaysNothing(pieces, Prose);
      AbsentSaysNothing(pieces, Reasoning);
    }
  }

  lemma SameUnlisted(e: Entry, m: Entry)
    requires m.summary == e.summary && m.tools == e.tools
    ensures Unlisted(m) == Unlisted(e)
  {
  }

  const Bare := Entry("m", Some("a"), Some("r"), None, ["t"], [])
  const Grown := Bare.(text := Some("ab"), pieces := [Piece(Prose, "ab")])

  /** An entry without ordered pieces is rendered whole; when its text grows, its reasoning and its tool are not
      rendered any more. */
  lemma GrowthHidesReasoning()
    ensures RendersBuckets(Bare) && Merged(Bare, "ab", "r", Grown)
    ensures !RendersBuckets(Grown)
    ensures Others(Rendered(Bare)) == [Piece(Discrete("tool"), "t")] && Others(Rendered(Grown)) == []
  {
    hide Said, Without, Absent;
    MadeUp(Bare);
    OnePiece(Piece(Prose, "ab"), Prose);
    OnePiece(Piece(Prose, "ab"), Reasoning);
    NothingSaid(Reasoning);
    NothingSaid(Prose);
    assert Unlisted(Bare) == [Piece(Discrete("tool"), "t")];
  }
}

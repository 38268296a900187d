/**
 The Markdown parser's loops and the incremental renderer as they run (apps/vscode/media/markdown.js).
 A rendered node shows a block's body; nodes carry a serial number so that keeping a node is visible.
 */
module MarkdownRender {
  import opened Text
  import opened MarkdownScan
  import opened MarkdownParse
  import opened MarkdownGrowth

  // ----------------------------------------------------------- the parse loop

  method ScanFence(c: Classifiers, lines: seq<string>, first: nat) returns (sp: Span)
    requires first < |lines| && c.fence(lines[first]).Some?
    ensures sp == BlockAt(c, lines, first)
  {
    var fence := c.fence(lines[first]).value;
    ghost var p := InFence(c, fence.marker);
    var codeLines: seq<string> := [];
    var closed := false;
    var i := first + 1;
    ghost var e := While(p, lines, i);
    while i < |lines|
      invariant first + 1 <= i <= |lines| && !closed
      invariant codeLines == lines[first + 1..i]
      invariant While(p, lines, i) == e
      decreases |lines| - i
    {
      var close := c.fence(lines[i]);
      if close.Some? && close.value.marker == fence.marker && close.value.info == "" {
        closed := true;
        i := i + 1;
        break;
      }
      codeLines := codeLines + [lines[i]];
      i := i + 1;
    }
    sp := Span(Code(c.lang(fence.info), Join(codeLines), closed), first, i);
  }

  method ScanTable(c: Classifiers, lines: seq<string>, first: nat) returns (sp: Span)
    requires first + 1 < |lines| && c.row(lines[first]).Some? && c.separator(lines[first + 1])
    ensures sp.first == first && sp.next == While(IsRow(c), lines, first + 2)
    ensures sp.body == Table(c.row(lines[first]).value, Rows(c, lines[first + 2..sp.next]))
  {
    var rows: seq<seq<string>> := [];
    var i := first + 2;
    ghost var e := While(IsRow(c), lines, i);
    while i < |lines|
      invariant first + 2 <= i <= e
      invariant While(IsRow(c), lines, i) == e
      invariant rows == Rows(c, lines[first + 2..i])
      decreases |lines| - i
    {
      var nextRow := c.row(lines[i]);
      if nextRow.None? {
        break;
      }
      rows := rows + [nextRow.value];
      i := i + 1;
    }
    sp := Span(Table(c.row(lines[first]).value, rows), first, i);
  }

  /** The lines that continue the last item. */
  method ScanLazy(c: Classifiers, lines: seq<string>, first: nat, own: string) returns (text: string, i: nat)
    requires first <= |lines|
    ensures i == While(Lazy(c), lines, first)
    ensures text == ItemText(c, own, lines[first..i])
  {
    text, i := own, first;
    ghost var e := While(Lazy(c), lines, first);
    while i < |lines| && !c.blank(lines[i]) && c.item(lines[i]).None? && c.fence(lines[i]).None?
          && c.heading(lines[i]).None?
      invariant first <= i <= |lines|
      invariant While(Lazy(c), lines, i) == e
      invariant text == ItemText(c, own, lines[first..i])
    {
      assert lines[first..i + 1][..i - first] == lines[first..i];
      text := text + " " + c.trim(lines[i]);
      i := i + 1;
    }
  }

  method ScanList(c: Classifiers, lines: seq<string>, first: nat) returns (sp: Span)
    requires first < |lines| && c.item(lines[first]).Some?
    ensures var ordered := c.item(lines[first]).value.ordered;
            sp == Span(List(ordered, Items(c, lines, first, ordered)), first, ListEnd(c, lines, first, ordered))
  {
    hide ItemText, While, Lazy;
    var ordered := c.item(lines[first]).value.ordered;
    var items: seq<string> := [];
    var i := first;
    while i < |lines|
      invariant first <= i <= |lines|
      invariant ListEnd(c, lines, i, ordered) == ListEnd(c, lines, first, ordered)
      invariant items + Items(c, lines, i, ordered) == Items(c, lines, first, ordered)
      decreases |lines| - i
    {
      var item := c.item(lines[i]);
      if item.None? || item.value.ordered != ordered {
        break;
      }
      ghost var before := i;
      var text;
      text, i := ScanLazy(c, lines, i + 1, item.value.text);
      assert Items(c, lines, before, ordered) == [text] + Items(c, lines, i, ordered);
      items := items + [text];
    }
    assert ListEnd(c, lines, i, ordered) == i && Items(c, lines, i, ordered) == [];
    assert items + [] == items;
    sp := Span(List(ordered, items), first, i);
  }

  method ScanParagraph(c: Classifiers, lines: seq<string>, first: nat) returns (sp: Span)
    requires first < |lines|
    ensures var e := While(InParagraph(c), lines, first + 1);
            sp == Span(Paragraph(Join(lines[first..e])), first, e)
  {
    var paraLines := [lines[first]];
    var i := first + 1;
    ghost var e := While(InParagraph(c), lines, i);
    while i < |lines| && !c.blank(lines[i]) && c.fence(lines[i]).None? && c.heading(lines[i]).None? &&
          c.item(lines[i]).None? && c.row(lines[i]).None? && !c.rule(lines[i])
      invariant first + 1 <= i <= |lines|
      invariant While(InParagraph(c), lines, i) == e
      invariant paraLines == lines[first..i]
    {
      paraLines := paraLines + [lines[i]];
      i := i + 1;
    }
    sp := Span(Paragraph(Join(paraLines)), first, i);
  }

  method ScanBlock(c: Classifiers, lines: seq<string>, first: nat) returns (sp: Span)
    requires first < |lines|
    ensures sp == BlockAt(c, lines, first)
  {
    hide While, Items, ListEnd, Join, InFence, InParagraph, IsRow, Rows;
    var line := lines[first];
    if c.fence(line).Some? {
      sp := ScanFence(c, lines, first);
    } else if c.heading(line).Some? {
      var heading := c.heading(line).value;
      sp := Span(Title(heading.level, heading.text), first, first + 1);
    } else if c.rule(line) {
      sp := Span(Rule, first, first + 1);
    } else if c.row(line).Some? && first + 1 < |lines| && c.separator(lines[first + 1]) {
      sp := ScanTable(c, lines, first);
    } else if c.item(line).Some? {
      sp := ScanList(c, lines, first);
    } else {
      sp := ScanParagraph(c, lines, first);
    }
  }

  /** Move the running offset over the lines of one block. */
  method Advance(lines: seq<string>, from: nat, to: nat) returns (width: nat)
    requires from <= to <= |lines|
    ensures Offset(lines, from) + width == Offset(lines, to)
  {
    width := 0;
    for i := from to to
      invariant Offset(lines, from) + width == Offset(lines, i)
    {
      width := width + |lines[i]| + 1;
    }
  }

  /** The spans found so far and those still to come. */
  ghost predicate Progress(c: Classifiers, lines: seq<string>, found: seq<Span>, i: nat)
  {
    && i <= |lines|
    && Located(lines, found)
    && found + ParseFrom(c, lines, i) == ParseFrom(c, lines, 0)
    && forall k :: 0 <= k < |found| ==> !Stops(c, lines, found[k])
  }

  lemma ProgressStarts(c: Classifiers, lines: seq<string>)
    ensures Progress(c, lines, [], 0) && Offset(lines, 0) == 0 && PlaceAll(lines, []) == []
  {
    assert [] + ParseFrom(c, lines, 0) == ParseFrom(c, lines, 0);
  }

  lemma ProgressOverBlank(c: Classifiers, lines: seq<string>, found: seq<Span>, i: nat)
    requires Progress(c, lines, found, i) && i < |lines| && c.blank(lines[i])
    ensures Progress(c, lines, found, i + 1)
  {
  }

  lemma ProgressOverBlock(c: Classifiers, lines: seq<string>, found: seq<Span>, i: nat)
    requires Progress(c, lines, found, i) && i < |lines| && !c.blank(lines[i])
    requires !Stops(c, lines, BlockAt(c, lines, i))
    ensures Progress(c, lines, found + [BlockAt(c, lines, i)], BlockAt(c, lines, i).next)
  {
    hide BlockAt, Stops;
    var sp := BlockAt(c, lines, i);
    assert found + ([sp] + ParseFrom(c, lines, sp.next)) == (found + [sp]) + ParseFrom(c, lines, sp.next);
  }

  lemma PlaceOneMore(lines: seq<string>, found: seq<Span>, sp: Span)
    requires Located(lines, found + [sp])
    ensures Located(lines, found) && sp.first < sp.next <= |lines|
    ensures PlaceAll(lines, found + [sp]) ==
            PlaceAll(lines, found) + [Block(sp.body, Offset(lines, sp.first), Offset(lines, sp.next))]
  {
    hide Offset;
    var all := found + [sp];
    assert all[|found|] == sp;
    forall k | 0 <= k < |found| ensures found[k].first < found[k].next <= |lines| {
      assert all[k] == found[k];
    }
    var placed, more := PlaceAll(lines, all), PlaceAll(lines, found) + [Place(lines, sp)];
    assert |placed| == |more|;
    forall k | 0 <= k < |placed| ensures placed[k] == more[k] {
      assert all[k] == if k < |found| then found[k] else sp;
    }
  }

  /** The parse is over when a block stops it. */
  lemma ParseStopsAt(c: Classifiers, text: string, found: seq<Span>, i: nat)
    requires Progress(c, Split(text), found, i) && i < |Split(text)| && !c.blank(Split(text)[i])
    requires Stops(c, Split(text), BlockAt(c, Split(text), i))
    ensures var sp := BlockAt(c, Split(text), i);
            && Located(Split(text), found + [sp])
            && Parse(c, text) == Parsed(PlaceAll(Split(text), found + [sp]), Offset(Split(text), i), text)
  {
    hide BlockAt, Stops, Offset, Split;
    var lines := Split(text);
    assert ParseFrom(c, lines, i) == [BlockAt(c, lines, i)];
  }

  /** The parse is over when no line is left. */
  lemma ParseEnds(c: Classifiers, text: string, found: seq<Span>)
    requires Progress(c, Split(text), found, |Split(text)|)
    ensures Parse(c, text) == Parsed(PlaceAll(Split(text), found), |text|, text)
  {
    hide BlockAt, Stops, Offset, Split;
    assert found + [] == found;
  }

  /** `parse`: one pass over the lines with a running offset. */
  method ParseText(c: Classifiers, text: string) returns (p: Parsed)
    ensures p == Parse(c, text)
  {
    hide BlockAt, Split, ParseFrom, Offset, PlaceAll, Parse;
    var lines := Split(text);
    var blocks: seq<Block> := [];
    var offset, i := 0, 0;
    ghost var found: seq<Span> := [];
    ProgressStarts(c, lines);
    while i < |lines|
      invariant 0 <= i <= |lines| && offset == Offset(lines, i)
      invariant Progress(c, lines, found, i)
      invariant blocks == PlaceAll(lines, found)
      decreases |lines| - i
    {
      if c.blank(lines[i]) {
        ProgressOverBlank(c, lines, found, i);
        var width := Advance(lines, i, i + 1);
        offset := offset + width;
        i := i + 1;
        continue;
      }
      var start := offset;
      var sp := ScanBlock(c, lines, i);
      var width := Advance(lines, i, sp.next);
      offset := offset + width;
      var open := Ends(c, lines, sp);
      if open { ParseStopsAt(c, text, found, i); } else { ProgressOverBlock(c, lines, found, i); }
      PlaceOneMore(lines, found, sp);
      blocks := blocks + [Block(sp.body, start, offset)];
      if open {
        p := Parsed(blocks, start, text);
        return;
      }
      found := found + [sp];
      i := sp.next;
    }
    ParseEnds(c, text, found);
    p := Parsed(blocks, |text|, text);
  }

  method Ends(c: Classifiers, lines: seq<string>, sp: Span) returns (open: bool)
    requires sp.next <= |lines|
    ensures open == Stops(c, lines, sp)
  {
    open := match sp.body
      case Code(_, _, closed) => !closed
      case Paragraph(_) => !(sp.next < |lines| && c.blank(lines[sp.next]))
      case _ => false;
  }

  // ------------------------------------------------------ incremental render

  /** One rendered block. The serial number is its identity. */
  datatype Node = Node(serial: nat, body: Body)

  ghost predicate Shows(children: seq<Node>, blocks: seq<Block>)
  {
    |children| == |blocks| && forall k :: 0 <= k < |blocks| ==> children[k].body == blocks[k].body
  }

  predicate SameExtent(b: Block, b': Block)
  {
    KindOf(b.body) == KindOf(b'.body) && b.start == b'.start && b.end == b'.end
  }

  class Container {
    const c: Classifiers
    var children: seq<Node>
    var state: Option<Parsed>
    var created: nat

    constructor (c: Classifiers)
      ensures this.c == c && state.None? && children == [] && Valid()
    {
      this.c, children, state, created := c, [], None, 0;
    }

    ghost predicate Valid()
      reads this
    {
      && (forall k :: 0 <= k < |children| ==> children[k].serial < created)
      && (state.Some? ==>
            && state.value == Parse(c, state.value.source)
            && Shows(children, state.value.blocks))
    }

    /** How many leading blocks keep their nodes. */
    method Keep(before: Parsed, after: Parsed) returns (keep: nat)
      requires before == Parse(c, before.source) && after == Parse(c, after.source)
      requires before.source <= after.source
      ensures keep <= |before.blocks| && keep <= |after.blocks|
      ensures forall k :: 0 <= k < keep ==> before.blocks[k] == after.blocks[k]
      ensures forall k: nat :: Final(c, before.source, k) ==> k < keep
    {
      hide Parse;
      keep := 0;
      while keep < |before.blocks| && keep < |after.blocks| && SameExtent(before.blocks[keep], after.blocks[keep])
        invariant keep <= |before.blocks| && keep <= |after.blocks|
        invariant forall k :: 0 <= k < keep ==> SameExtent(before.blocks[k], after.blocks[k])
      {
        keep := keep + 1;
      }
      forall k: nat | Final(c, before.source, k) ensures k < keep {
        KeptIfFinal(c, before.source, after.source, k);
      }
      forall k | 0 <= k < keep ensures before.blocks[k] == after.blocks[k] {
        var t := after.source[|before.source|..];
        assert before.source + t == after.source;
        KeptBlocksMatch(c, before.source, t, k);
      }
      if keep > 0 && before.partialStart < |before.source| {
        if before.blocks[keep - 1].end > before.partialStart {
          keep := keep - 1;
        }
      }
    }

    /** Render `text`, reusing the nodes of unchanged leading blocks when the text only grew. */
    method Render(text: string)
      requires Valid()
      modifies this
      ensures Valid() && state == Some(Parse(c, text))
      ensures Shows(children, Parse(c, text).blocks)
      ensures forall k: nat ::
                old(state).Some? && old(state).value.source <= text && Final(c, old(state).value.source, k) ==>
                k < |old(children)| && k < |children| && children[k] == old(children)[k]
    {
      hide Parse;
      var parsed := ParseText(c, text);
      assert parsed.source == text by { ParsedSource(c, text); }
      var keep := 0;
      if state.Some? && |text| >= |state.value.source| && state.value.source <= text {
        keep := Keep(state.value, parsed);
      }
      while |children| > keep
        invariant keep <= |children| <= |old(children)|
        invariant children == old(children)[..|children|] && created == old(created)
      {
        children := children[..|children| - 1];
      }
      ghost var kept := children;
      forall k | 0 <= k < keep
        ensures children[k].body == parsed.blocks[k].body && children[k].serial < created
      {
        assert children[k] == old(children)[k];
      }
      for b := keep to |parsed.blocks|
        invariant |children| == b && kept <= children
        invariant forall k :: 0 <= k < b ==> children[k].body == parsed.blocks[k].body && children[k].serial < created
      {
        children := children + [Node(created, parsed.blocks[b].body)];
        created := created + 1;
      }
      state := Some(parsed);
    }
  }

  lemma ParsedSource(c: Classifiers, text: string)
    ensures Parse(c, text).source == text
  {
  }

  lemma KeptIfFinal(c: Classifiers, s: string, s': string, k: nat)
    requires s <= s' && Final(c, s, k)
    ensures k < |Parse(c, s).blocks| && k < |Parse(c, s').blocks|
    ensures forall j :: 0 <= j <= k ==> Parse(c, s).blocks[j] == Parse(c, s').blocks[j]
  {
    hide Parse;
    var t := s'[|s|..];
    assert s + t == s';
    FollowedBlocksAreFinal(c, s, t, k);
    forall j | 0 <= j <= k ensures Parse(c, s).blocks[j] == Parse(c, s').blocks[j] {
      assert Parse(c, s).blocks[..k + 1][j] == Parse(c, s').blocks[..k + 1][j];
    }
  }
}

/**
 The block grammar of the Markdown parser (apps/vscode/media/markdown.js), stated line by line from the classifiers
 alone: which lines each kind of block takes, where it ends, and what it says. Every block of a parse is one of these.
 */
module MarkdownGrammar {
  import opened Text
  import opened MarkdownScan
  import opened MarkdownParse

  // ------------------------------------------------------------- the grammar

  /** A line that ends a fenced block opened with `marker`. */
  predicate Closes(c: Classifiers, marker: string, line: string)
  {
    c.fence(line) == Some(Fence(marker, ""))
  }

  /** A fenced block: no line inside closes it; it ends after the line that does, or with the text. */
  ghost predicate IsCode(c: Classifiers, lines: seq<string>, sp: Span)
    requires sp.first < sp.next <= |lines|
  {
    && c.fence(lines[sp.first]).Some? && sp.body.Code?
    && var fence, last := c.fence(lines[sp.first]).value, if sp.body.closed then sp.next - 1 else sp.next;
       && sp.first < last
       && (forall l :: sp.first < l < last ==> !Closes(c, fence.marker, lines[l]))
       && (if sp.body.closed then Closes(c, fence.marker, lines[last]) else last == |lines|)
       && sp.body.lang == c.lang(fence.info) && sp.body.code == Join(lines[sp.first + 1..last])
  }

  ghost predicate IsTitle(c: Classifiers, lines: seq<string>, sp: Span)
    requires sp.first < sp.next <= |lines|
  {
    && c.heading(lines[sp.first]).Some? && sp.next == sp.first + 1
    && sp.body == Title(c.heading(lines[sp.first]).value.level, c.heading(lines[sp.first]).value.text)
  }

  /** A table: a header row over a separator, and then every line that is a row, cell by cell. */
  ghost predicate IsTable(c: Classifiers, lines: seq<string>, sp: Span)
    requires sp.first < sp.next <= |lines|
  {
    && sp.body.Table? && sp.first + 2 <= sp.next && c.separator(lines[sp.first + 1])
    && c.row(lines[sp.first]) == Some(sp.body.header)
    && |sp.body.rows| == sp.next - sp.first - 2
    && (forall j :: 0 <= j < |sp.body.rows| ==> c.row(lines[sp.first + 2 + j]) == Some(sp.body.rows[j]))
    && (sp.next < |lines| ==> c.row(lines[sp.next]).None?)
  }

  predicate IsItem(c: Classifiers, ordered: bool, line: string)
  {
    c.item(line).Some? && c.item(line).value.ordered == ordered
  }

  /** A line that goes on with the item above it. */
  predicate Continues(c: Classifiers, line: string)
  {
    !c.blank(line) && c.item(line).None? && c.fence(line).None? && c.heading(line).None?
  }

  /** The item's own text and its continuation lines, trimmed, each after a space. */
  function Spoken(c: Classifiers, own: string, more: seq<string>): (s: string)
  {
    own + Concat(seq(|more|, i requires 0 <= i < |more| => " " + c.trim(more[i])))
  }

  /** One item: the line it starts on, and the lines up to `b`, which continue it. */
  ghost predicate IsItemAt(c: Classifiers, lines: seq<string>, ordered: bool, a: nat, b: nat, text: string)
  {
    && a < b <= |lines| && IsItem(c, ordered, lines[a])
    && (forall l :: a < l < b ==> Continues(c, lines[l]))
    && text == Spoken(c, c.item(lines[a]).value.text, lines[a + 1..b])
  }

  /** A list from line `i` to line `e`: its items start at `starts`, one after another without a gap, and it ends where
      a line neither starts nor continues an item. */
  ghost predicate IsListAt(c: Classifiers, lines: seq<string>, ordered: bool, i: nat, e: nat, starts: seq<nat>,
                           items: seq<string>)
  {
    && i <= e <= |lines| && |items| == |starts| && (if starts == [] then i == e else starts[0] == i)
    && (forall k :: 0 <= k < |starts| ==> IsItemAt(c, lines, ordered, starts[k], ItemEnd(starts, k, e), items[k]))
    && (e < |lines| ==> !IsItem(c, ordered, lines[e]) && (starts != [] ==> !Continues(c, lines[e])))
  }

  /** Where item `k` ends. */
  function ItemEnd(starts: seq<nat>, k: nat, e: nat): (n: nat) { if k + 1 < |starts| then starts[k + 1] else e }

  ghost predicate IsList(c: Classifiers, lines: seq<string>, sp: Span)
    requires sp.first < sp.next <= |lines|
  {
    && sp.body.List? && IsItem(c, sp.body.ordered, lines[sp.first])
    && exists starts :: starts != [] && IsListAt(c, lines, sp.body.ordered, sp.first, sp.next, starts, sp.body.items)
  }

  /** A line that may go on with a paragraph. */
  predicate PlainLine(c: Classifiers, line: string)
  {
    && !c.blank(line) && c.fence(line).None? && c.heading(line).None? && c.item(line).None? && c.row(line).None?
    && !c.rule(line)
  }

  ghost predicate IsParagraph(c: Classifiers, lines: seq<string>, sp: Span)
    requires sp.first < sp.next <= |lines|
  {
    && sp.body == Paragraph(Join(lines[sp.first..sp.next]))
    && (forall l :: sp.first < l < sp.next ==> PlainLine(c, lines[l]))
    && (sp.next < |lines| ==> !PlainLine(c, lines[sp.next]))
  }

  predicate OpensTable(c: Classifiers, lines: seq<string>, i: nat)
    requires i < |lines|
  {
    c.row(lines[i]).Some? && i + 1 < |lines| && c.separator(lines[i + 1])
  }

  /** What a block is, by its first line: a fence, else a heading, else a rule, else a table, else a list, else a
      paragraph. */
  ghost predicate IsBlock(c: Classifiers, lines: seq<string>, sp: Span)
  {
    && sp.first < sp.next <= |lines|
    && var line := lines[sp.first];
       if c.fence(line).Some? then IsCode(c, lines, sp)
       else if c.heading(line).Some? then IsTitle(c, lines, sp)
       else if c.rule(line) then sp.body == Rule && sp.next == sp.first + 1
       else if OpensTable(c, lines, sp.first) then IsTable(c, lines, sp)
       else if c.item(line).Some? then IsList(c, lines, sp)
       else IsParagraph(c, lines, sp)
  }

  // ------------------------------------------------------------------ proofs

  lemma {:induction false} ItemTextIsSpoken(c: Classifiers, own: string, more: seq<string>)
    ensures ItemText(c, own, more) == Spoken(c, own, more)
  {
    var added := seq(|more|, i requires 0 <= i < |more| => " " + c.trim(more[i]));
    if more == [] {
      assert own + [] == own;
    } else {
      var init, last := more[..|more| - 1], more[|more| - 1];
      ItemTextIsSpoken(c, own, init);
      assert added[..|added| - 1] == seq(|init|, i requires 0 <= i < |init| => " " + c.trim(init[i]));
      assert own + (Concat(added[..|added| - 1]) + (" " + c.trim(last))) ==
             (own + Concat(added[..|added| - 1])) + " " + c.trim(last);
    }
  }

  /** The items of a list, and where they start. */
  lemma {:induction false} ItemsAre(c: Classifiers, lines: seq<string>, i: nat, ordered: bool)
    returns (starts: seq<nat>)
    requires i <= |lines|
    ensures IsListAt(c, lines, ordered, i, ListEnd(c, lines, i, ordered), starts, Items(c, lines, i, ordered))
    ensures ItemAt(c, lines, i, ordered) <==> starts != []
    decreases |lines| - i
  {
    hide ItemText, Spoken, While, IsListAt;
    if ItemAt(c, lines, i, ordered) {
      var e, own := While(Lazy(c), lines, i + 1), c.item(lines[i]).value.text;
      var rest := ItemsAre(c, lines, e, ordered);
      starts := [i] + rest;
      ItemTextIsSpoken(c, own, lines[i + 1..e]);
      ItemConsed(c, lines, ordered, i, e, ListEnd(c, lines, e, ordered), ItemText(c, own, lines[i + 1..e]),
                 rest, Items(c, lines, e, ordered));
    } else {
      starts := [];
      assert IsListAt(c, lines, ordered, i, i, [], []) by { NoItems(c, lines, ordered, i); }
    }
  }

  lemma NoItems(c: Classifiers, lines: seq<string>, ordered: bool, i: nat)
    requires i <= |lines| && !ItemAt(c, lines, i, ordered)
    ensures IsListAt(c, lines, ordered, i, i, [], [])
  {
  }

  /** One more item in front of a list. */
  lemma ItemConsed(c: Classifiers, lines: seq<string>, ordered: bool, i: nat, e: nat, end: nat, text: string,
                   rest: seq<nat>, more: seq<string>)
    requires IsItemAt(c, lines, ordered, i, e, text) && IsListAt(c, lines, ordered, e, end, rest, more)
    requires e < |lines| ==> !Continues(c, lines[e])
    ensures IsListAt(c, lines, ordered, i, end, [i] + rest, [text] + more)
  {
    hide IsItemAt;
    var starts, items := [i] + rest, [text] + more;
    forall k | 0 <= k < |starts|
      ensures IsItemAt(c, lines, ordered, starts[k], ItemEnd(starts, k, end), items[k])
    {
      if k > 0 {
        assert starts[k] == rest[k - 1] && ItemEnd(starts, k, end) == ItemEnd(rest, k - 1, end);
        assert items[k] == more[k - 1];
      }
    }
    assert i <= end by { assert IsItemAt(c, lines, ordered, i, e, text); ItemIsForward(c, lines, ordered, i, e, text); }
  }

  lemma ItemIsForward(c: Classifiers, lines: seq<string>, ordered: bool, a: nat, b: nat, text: string)
    requires IsItemAt(c, lines, ordered, a, b, text)
    ensures a < b
  {
  }

  lemma BlockIsList(c: Classifiers, lines: seq<string>, i: nat)
    requires i < |lines| && c.item(lines[i]).Some?
    ensures var ordered := c.item(lines[i]).value.ordered;
            IsList(c, lines, Span(List(ordered, Items(c, lines, i, ordered)), i, ListEnd(c, lines, i, ordered)))
  {
    hide Items, ListEnd, IsListAt;
    var ordered := c.item(lines[i]).value.ordered;
    var starts := ItemsAre(c, lines, i, ordered);
  }

  /** The block found at a line is the one the grammar has there. */
  lemma BlockAtIsBlock(c: Classifiers, lines: seq<string>, i: nat)
    requires i < |lines|
    ensures IsBlock(c, lines, BlockAt(c, lines, i))
  {
    hide While, Items, ListEnd, Join, IsListAt;
    if c.item(lines[i]).Some? {
      BlockIsList(c, lines, i);
    }
  }

  /** The block ends with something still to come: a fence not closed, or a paragraph with no blank line after it. */
  predicate Unterminated(c: Classifiers, lines: seq<string>, sp: Span)
  {
    match sp.body
    case Code(_, _, closed) => !closed
    case Paragraph(_) => sp.next >= |lines| || !c.blank(lines[sp.next])
    case _ => false
  }

  /** MAIN: every block of a parse is the one the grammar has at its first line; only the last one can be unterminated,
      and `partialStart` is where it starts, or the end of the text. */
  lemma ParsedBlocksAreGrammatical(c: Classifiers, text: string)
    ensures var lines, p := Split(text), Parse(c, text);
            var spans := ParseFrom(c, lines, 0);
            && |p.blocks| == |spans| && (forall k :: 0 <= k < |spans| ==> IsBlock(c, lines, spans[k]))
            && (forall k :: 0 <= k < |spans| && Unterminated(c, lines, spans[k]) ==> k == |spans| - 1)
            && p.partialStart == (if spans != [] && Unterminated(c, lines, spans[|spans| - 1])
                                  then p.blocks[|spans| - 1].start else |text|)
  {
    hide BlockAt, IsBlock, ParseFrom, Offset;
    var lines := Split(text);
    var spans := ParseFrom(c, lines, 0);
    BlocksTile(c, lines, 0);
    SpansAreGrammatical(c, lines, 0, spans);
  }

  lemma {:induction false} SpansAreGrammatical(c: Classifiers, lines: seq<string>, i: nat, spans: seq<Span>)
    requires Located(lines, spans) && Tiles(c, lines, i, spans)
    ensures forall k :: 0 <= k < |spans| ==> IsBlock(c, lines, spans[k])
    ensures forall k :: 0 <= k < |spans| && Unterminated(c, lines, spans[k]) ==> k == |spans| - 1
    decreases |spans|
  {
    hide BlockAt, IsBlock;
    if spans != [] {
      BlockAtIsBlock(c, lines, spans[0].first);
      if !Stops(c, lines, spans[0]) {
        SpansAreGrammatical(c, lines, spans[0].next, spans[1..]);
        assert forall k :: 1 <= k < |spans| ==> spans[k] == spans[1..][k - 1];
      }
    }
  }
}

/**
 Parsing a whole Markdown text into blocks with offsets (apps/vscode/media/markdown.js), the loop as it
 runs, and what the parse of a text says about the parse of a longer one.
 */
module MarkdownParse {
  import opened Text
  import opened MarkdownScan

  /** Every line of a text, the unterminated last one included. */
  function Split(text: string): (ls: seq<string>)
    ensures |ls| == |Lines(text)| + 1
  {
    Lines(text) + [Rest(text)]
  }

  /** Where line `i` starts. */
  function Offset(lines: seq<string>, i: nat): (o: nat)
    requires i <= |lines|
  {
    if i == 0 then 0 else Offset(lines, i - 1) + |lines[i - 1]| + 1
  }

  /** A block as `parse` reports it. */
  datatype Block = Block(body: Body, start: nat, end: nat)

  datatype Parsed = Parsed(blocks: seq<Block>, partialStart: nat, source: string)

  /** The block ends the parse: an open fence, or a paragraph not followed by a blank line. */
  predicate Stops(c: Classifiers, lines: seq<string>, sp: Span)
    requires sp.next <= |lines|
  {
    match sp.body
    case Code(_, _, closed) => !closed
    case Paragraph(_) => !(sp.next < |lines| && c.blank(lines[sp.next]))
    case _ => false
  }

  ghost predicate Located(lines: seq<string>, spans: seq<Span>)
  {
    forall k :: 0 <= k < |spans| ==> spans[k].first < spans[k].next <= |lines|
  }

  /** The blocks from line `i` on. */
  function ParseFrom(c: Classifiers, lines: seq<string>, i: nat): (spans: seq<Span>)
    requires i <= |lines|
    ensures Located(lines, spans)
    decreases |lines| - i
  {
    if i == |lines| then []
    else if c.blank(lines[i]) then ParseFrom(c, lines, i + 1)
    else
      var sp := BlockAt(c, lines, i);
      if Stops(c, lines, sp) then [sp] else [sp] + ParseFrom(c, lines, sp.next)
  }

  function Place(lines: seq<string>, sp: Span): (b: Block)
    requires sp.first <= |lines| && sp.next <= |lines|
  {
    Block(sp.body, Offset(lines, sp.first), Offset(lines, sp.next))
  }

  function PlaceAll(lines: seq<string>, spans: seq<Span>): (bs: seq<Block>)
    requires Located(lines, spans)
    ensures |bs| == |spans|
    ensures forall k :: 0 <= k < |bs| ==> bs[k] == Place(lines, spans[k])
  {
    seq(|spans|, k requires 0 <= k < |spans| => Place(lines, spans[k]))
  }

  /** The start of the block that ended the parse, or the end of the text. */
  function PartialStart(c: Classifiers, lines: seq<string>, spans: seq<Span>, length: nat): (p: nat)
    requires Located(lines, spans)
  {
    if spans != [] && Stops(c, lines, spans[|spans| - 1]) then Offset(lines, spans[|spans| - 1].first) else length
  }

  function Parse(c: Classifiers, text: string): (p: Parsed)
  {
    var lines := Split(text);
    var spans := ParseFrom(c, lines, 0);
    Parsed(PlaceAll(lines, spans), PartialStart(c, lines, spans, |text|), text)
  }

  // ---------------------------------------------------------------- tiling

  ghost predicate AllBlank(c: Classifiers, lines: seq<string>, i: nat, j: nat)
  {
    i <= j <= |lines| && forall l :: i <= l < j ==> c.blank(lines[l])
  }

  /** From line `i` on: blank lines, then the block at the first non-blank one, and so on after it. Nothing
      but blank lines is left over, unless a block ended the parse. */
  ghost predicate Tiles(c: Classifiers, lines: seq<string>, i: nat, spans: seq<Span>)
    decreases |spans|
  {
    if spans == [] then AllBlank(c, lines, i, |lines|)
    else
      var sp := spans[0];
      && AllBlank(c, lines, i, sp.first)
      && sp.first < |lines| && !c.blank(lines[sp.first])
      && sp == BlockAt(c, lines, sp.first)
      && (if Stops(c, lines, sp) then |spans| == 1 else Tiles(c, lines, sp.next, spans[1..]))
  }

  /** MAIN: the blocks start at non-blank lines and are separated only by blank lines; what follows the last
      one is blank unless that block ended the parse. */
  lemma {:induction false} BlocksTile(c: Classifiers, lines: seq<string>, i: nat)
    requires i <= |lines|
    ensures Tiles(c, lines, i, ParseFrom(c, lines, i))
    decreases |lines| - i
  {
    hide BlockAt, Stops;
    if i < |lines| {
      if c.blank(lines[i]) {
        BlocksTile(c, lines, i + 1);
      } else {
        var sp := BlockAt(c, lines, i);
        if !Stops(c, lines, sp) {
          BlocksTile(c, lines, sp.next);
          assert ([sp] + ParseFrom(c, lines, sp.next))[1..] == ParseFrom(c, lines, sp.next);
        }
      }
    }
  }

  lemma {:induction false} SpansOrdered(c: Classifiers, lines: seq<string>, i: nat, spans: seq<Span>)
    requires Located(lines, spans) && Tiles(c, lines, i, spans)
    ensures forall k :: 0 <= k < |spans| ==> i <= spans[k].first
    ensures forall j, k :: 0 <= j < k < |spans| ==> spans[j].next <= spans[k].first
    decreases |spans|
  {
    hide BlockAt, Stops;
    if spans != [] && |spans| > 1 {
      var rest := spans[1..];
      SpansOrdered(c, lines, spans[0].next, rest);
      assert forall k :: 1 <= k < |spans| ==> spans[k] == rest[k - 1];
    }
  }

  lemma {:induction false} OffsetsGrow(lines: seq<string>, i: nat, j: nat)
    requires i <= j <= |lines|
    ensures Offset(lines, i) + (j - i) <= Offset(lines, j)
    decreases j
  {
    if i < j {
      OffsetsGrow(lines, i, j - 1);
    }
  }

  /** Reported offsets: every block is non-empty and ends no later than the next one starts. */
  lemma BlocksOrdered(c: Classifiers, text: string)
    ensures var bs := Parse(c, text).blocks;
            && (forall k :: 0 <= k < |bs| ==> bs[k].start < bs[k].end)
            && (forall j, k :: 0 <= j < k < |bs| ==> bs[j].end <= bs[k].start)
  {
    hide ParseFrom, BlockAt, Stops, Tiles, Offset;
    var lines := Split(text);
    var spans := ParseFrom(c, lines, 0);
    BlocksTile(c, lines, 0);
    SpansOrdered(c, lines, 0, spans);
    forall k | 0 <= k < |spans| ensures Offset(lines, spans[k].first) < Offset(lines, spans[k].next) {
      OffsetsGrow(lines, spans[k].first, spans[k].next);
    }
    forall j, k | 0 <= j < k < |spans| ensures Offset(lines, spans[j].next) <= Offset(lines, spans[k].first) {
      OffsetsGrow(lines, spans[j].next, spans[k].first);
    }
  }

  // -------------------------------------------------------------- coverage

  /** The parse the blocks' own rules give: it goes on after every block. */
  function FullFrom(c: Classifiers, lines: seq<string>, i: nat): (spans: seq<Span>)
    requires i <= |lines|
    ensures Located(lines, spans)
    decreases |lines| - i
  {
    if i == |lines| then []
    else if c.blank(lines[i]) then FullFrom(c, lines, i + 1)
    else [BlockAt(c, lines, i)] + FullFrom(c, lines, BlockAt(c, lines, i).next)
  }

  predicate Takes(sp: Span, l: nat) { sp.first <= l < sp.next }

  ghost predicate Covered(spans: seq<Span>, l: nat)
  {
    exists k :: 0 <= k < |spans| && Takes(spans[k], l)
  }

  /** Every non-blank line from `i` on is in some block. */
  ghost predicate Covers(c: Classifiers, lines: seq<string>, i: nat, spans: seq<Span>)
  {
    forall l :: i <= l < |lines| && !c.blank(lines[l]) ==> Covered(spans, l)
  }

  /** A paragraph that is followed directly by a line that is neither blank nor part of it. */
  predicate CutsOff(c: Classifiers, lines: seq<string>, sp: Span)
  {
    sp.body.Paragraph? && sp.next < |lines| && !c.blank(lines[sp.next])
  }

  lemma CoveredCons(sp: Span, rest: seq<Span>, l: nat)
    ensures Covered([sp] + rest, l) <==> Takes(sp, l) || Covered(rest, l)
  {
    var all := [sp] + rest;
    if Covered(rest, l) {
      var k :| 0 <= k < |rest| && Takes(rest[k], l);
      assert Takes(all[k + 1], l);
    }
    if Takes(sp, l) {
      assert Takes(all[0], l);
    }
    if Covered(all, l) && !Takes(sp, l) {
      var k :| 0 <= k < |all| && Takes(all[k], l);
      assert Takes(rest[k - 1], l);
    }
  }

  /** A block that does not reach the end either goes on or cuts the rest off. */
  lemma StopsMeans(c: Classifiers, lines: seq<string>, i: nat)
    requires i < |lines| && !c.blank(lines[i])
    ensures var sp := BlockAt(c, lines, i);
            Stops(c, lines, sp) ==> sp.next == |lines| || CutsOff(c, lines, sp)
    ensures var sp := BlockAt(c, lines, i);
            CutsOff(c, lines, sp) ==> Stops(c, lines, sp)
  {
    hide While, InFence, InParagraph, ListEnd, Items, Join;
  }

  ghost predicate Unbroken(c: Classifiers, lines: seq<string>, spans: seq<Span>)
  {
    forall k :: 0 <= k < |spans| ==> !CutsOff(c, lines, spans[k])
  }

  /** MAIN: the parse reaches every non-blank line exactly when no paragraph cuts the rest off. */
  lemma {:induction false} CoversIffUnbroken(c: Classifiers, lines: seq<string>, i: nat)
    requires i <= |lines|
    ensures Covers(c, lines, i, ParseFrom(c, lines, i)) <==> Unbroken(c, lines, FullFrom(c, lines, i))
    decreases |lines| - i
  {
    hide BlockAt, Stops, CutsOff;
    if i < |lines| {
      if c.blank(lines[i]) {
        CoversIffUnbroken(c, lines, i + 1);
      } else {
        var sp := BlockAt(c, lines, i);
        StopsMeans(c, lines, i);
        var full := FullFrom(c, lines, sp.next);
        if Stops(c, lines, sp) {
          StoppedCovers(c, lines, i, sp);
        } else {
          CoversIffUnbroken(c, lines, sp.next);
          CoversCons(c, lines, i, sp, ParseFrom(c, lines, sp.next));
          UnbrokenCons(c, lines, sp, full);
        }
      }
    }
  }

  lemma UnbrokenCons(c: Classifiers, lines: seq<string>, sp: Span, rest: seq<Span>)
    ensures Unbroken(c, lines, [sp] + rest) <==> !CutsOff(c, lines, sp) && Unbroken(c, lines, rest)
  {
    hide CutsOff;
    var all := [sp] + rest;
    assert all[0] == sp;
    assert forall k :: 0 <= k < |rest| ==> rest[k] == all[k + 1];
  }

  lemma CoversCons(c: Classifiers, lines: seq<string>, i: nat, sp: Span, rest: seq<Span>)
    requires sp.first == i < sp.next <= |lines|
    ensures Covers(c, lines, i, [sp] + rest) <==> Covers(c, lines, sp.next, rest)
  {
    forall l: nat ensures Covered([sp] + rest, l) <==> Takes(sp, l) || Covered(rest, l) {
      CoveredCons(sp, rest, l);
    }
  }

  lemma StoppedCovers(c: Classifiers, lines: seq<string>, i: nat, sp: Span)
    requires i < |lines| && !c.blank(lines[i]) && sp == BlockAt(c, lines, i)
    requires Stops(c, lines, sp)
    ensures Covers(c, lines, i, [sp]) <==> Unbroken(c, lines, [sp] + FullFrom(c, lines, sp.next))
  {
    hide BlockAt, Stops;
    StopsMeans(c, lines, i);
    UnbrokenCons(c, lines, sp, FullFrom(c, lines, sp.next));
    CoversCons(c, lines, i, sp, []);
    assert [sp] + [] == [sp];
    if sp.next < |lines| {
      assert !Covered([], sp.next);
    }
  }

  /** Classifiers under which "- a" is a list item and nothing else is special. */
  const ListOnly := Classifiers(
    (s: string) => s == "",
    (s: string) => None, (s: string) => None, (s: string) => false, (s: string) => None, (s: string) => false,
    (s: string) => if s == "- a" then Some(Item(false, "a")) else None,
    (s: string) => s, (s: string) => s)

  /** A list directly under a paragraph is not parsed at all. */
  lemma ListUnderParagraphIsDropped()
    ensures Split("p\n- a") == ["p", "- a"]
    ensures !Covers(ListOnly, ["p", "- a"], 0, ParseFrom(ListOnly, ["p", "- a"], 0))
  {
    LinesFirst("p", "- a");
    NoNewline("- a");
    assert "p\n- a" == "p" + ['\n'] + "- a";
    var lines := ["p", "- a"];
    assert ListOnly.item(lines[1]).Some? && !ListOnly.blank(lines[1]);
    assert lines[0] != "- a" by { assert |lines[0]| != |"- a"|; }
    assert While(InParagraph(ListOnly), lines, 1) == 1;
    var sp := BlockAt(ListOnly, lines, 0);
    assert sp.body.Paragraph? && sp.next == 1;
    var full := FullFrom(ListOnly, lines, 0);
    assert full == [sp] + FullFrom(ListOnly, lines, 1);
    assert CutsOff(ListOnly, lines, full[0]);
    CoversIffUnbroken(ListOnly, lines, 0);
  }
}

/**
 Block scanning of the incremental Markdown renderer (apps/vscode/media/markdown.js): which lines one block
 takes and what it says. The line classifiers are parameters, so every result holds for any of them.
 */
module MarkdownScan {
  import opened Text

  datatype Fence = Fence(marker: string, info: string)
  datatype Heading = Heading(level: nat, text: string)
  datatype Item = Item(ordered: bool, text: string)

  datatype Classifiers = Classifiers(
    blank: string -> bool,
    fence: string -> Option<Fence>,
    heading: string -> Option<Heading>,
    rule: string -> bool,
    row: string -> Option<seq<string>>,
    separator: string -> bool,
    item: string -> Option<Item>,
    trim: string -> string,
    lang: string -> string)

  /** What a block renders from. */
  datatype Body =
    | Code(lang: string, code: string, closed: bool)
    | Title(level: nat, text: string)
    | Rule
    | Table(header: seq<string>, rows: seq<seq<string>>)
    | List(ordered: bool, items: seq<string>)
    | Paragraph(text: string)

  datatype Kind = KCode | KTitle | KRule | KTable | KList | KParagraph

  function KindOf(b: Body): (k: Kind)
  {
    match b
    case Code(_, _, _) => KCode
    case Title(_, _) => KTitle
    case Rule => KRule
    case Table(_, _) => KTable
    case List(_, _) => KList
    case Paragraph(_) => KParagraph
  }

  /** A block and the half-open range of lines it takes. */
  datatype Span = Span(body: Body, first: nat, next: nat)

  // ------------------------------------------------------------ line ranges

  /** The first index from `i` on whose line fails `p`, or the number of lines. */
  function While(p: string -> bool, lines: seq<string>, i: nat): (e: nat)
    requires i <= |lines|
    ensures i <= e <= |lines|
    ensures forall j :: i <= j < e ==> p(lines[j])
    ensures e < |lines| ==> !p(lines[e])
    decreases |lines| - i
  {
    if i < |lines| && p(lines[i]) then While(p, lines, i + 1) else i
  }

  /** The two documents have the same first `n` lines. */
  ghost predicate Agree(lines: seq<string>, lines': seq<string>, n: nat)
  {
    n <= |lines| && n <= |lines'| && forall k :: 0 <= k < n ==> lines[k] == lines'[k]
  }

  /** A scan sees no further than the lines it stops at. */
  lemma WhileAgrees(p: string -> bool, lines: seq<string>, lines': seq<string>, i: nat, n: nat)
    requires Agree(lines, lines', n) && i <= n
    ensures Min(While(p, lines, i), n) == Min(While(p, lines', i), n)
  {
    hide While;
    var e, e' := While(p, lines, i), While(p, lines', i);
    assert e < n ==> lines[e] == lines'[e];
    assert e' < n ==> lines[e'] == lines'[e'];
  }

  // ----------------------------------------------------------------- blocks

  /** Not the line that closes a fence opened with `marker`. */
  function InFence(c: Classifiers, marker: string): (p: string -> bool)
  {
    line => !(c.fence(line).Some? && c.fence(line).value.marker == marker && c.fence(line).value.info == "")
  }

  function IsRow(c: Classifiers): (p: string -> bool) { line => c.row(line).Some? }

  /** A lazy continuation of a list item. */
  function Lazy(c: Classifiers): (p: string -> bool)
  {
    line => !c.blank(line) && c.item(line).None? && c.fence(line).None? && c.heading(line).None?
  }

  function InParagraph(c: Classifiers): (p: string -> bool)
  {
    line => !c.blank(line) && c.fence(line).None? && c.heading(line).None? && c.item(line).None?
            && c.row(line).None? && !c.rule(line)
  }

  function Rows(c: Classifiers, lines: seq<string>): (rs: seq<seq<string>>)
    requires forall j :: 0 <= j < |lines| ==> c.row(lines[j]).Some?
  {
    seq(|lines|, j requires 0 <= j < |lines| => c.row(lines[j]).value)
  }

  /** An item's own text followed by its continuation lines. */
  function ItemText(c: Classifiers, own: string, more: seq<string>): (s: string)
  {
    if more == [] then own
    else ItemText(c, own, more[..|more| - 1]) + " " + c.trim(more[|more| - 1])
  }

  predicate ItemAt(c: Classifiers, lines: seq<string>, i: nat, ordered: bool)
  {
    i < |lines| && c.item(lines[i]).Some? && c.item(lines[i]).value.ordered == ordered
  }

  function ListEnd(c: Classifiers, lines: seq<string>, i: nat, ordered: bool): (e: nat)
    requires i <= |lines|
    ensures i <= e <= |lines|
    ensures ItemAt(c, lines, i, ordered) ==> i < e
    decreases |lines| - i
  {
    if ItemAt(c, lines, i, ordered) then ListEnd(c, lines, While(Lazy(c), lines, i + 1), ordered) else i
  }

  function Items(c: Classifiers, lines: seq<string>, i: nat, ordered: bool): (xs: seq<string>)
    requires i <= |lines|
    decreases |lines| - i
  {
    if ItemAt(c, lines, i, ordered) then
      var e := While(Lazy(c), lines, i + 1);
      [ItemText(c, c.item(lines[i]).value.text, lines[i + 1..e])] + Items(c, lines, e, ordered)
    else []
  }

  /** The block that starts at line `i`. */
  function BlockAt(c: Classifiers, lines: seq<string>, i: nat): (sp: Span)
    requires i < |lines|
    ensures sp.first == i < sp.next <= |lines|
  {
    var line := lines[i];
    if c.fence(line).Some? then
      var e := While(InFence(c, c.fence(line).value.marker), lines, i + 1);
      Span(Code(c.lang(c.fence(line).value.info), Join(lines[i + 1..e]), e < |lines|), i,
           if e < |lines| then e + 1 else e)
    else if c.heading(line).Some? then
      Span(Title(c.heading(line).value.level, c.heading(line).value.text), i, i + 1)
    else if c.rule(line) then
      Span(Rule, i, i + 1)
    else if c.row(line).Some? && i + 1 < |lines| && c.separator(lines[i + 1]) then
      var e := While(IsRow(c), lines, i + 2);
      Span(Table(c.row(line).value, Rows(c, lines[i + 2..e])), i, e)
    else if c.item(line).Some? then
      var ordered := c.item(line).value.ordered;
      Span(List(ordered, Items(c, lines, i, ordered)), i, ListEnd(c, lines, i, ordered))
    else
      var e := While(InParagraph(c), lines, i + 1);
      Span(Paragraph(Join(lines[i..e])), i, e)
  }

  // ------------------------------------------------ blocks of growing text

  lemma AgreeSlice(lines: seq<string>, lines': seq<string>, n: nat, i: nat, j: nat)
    requires Agree(lines, lines', n) && i <= j <= n
    ensures lines[i..j] == lines'[i..j]
  {
  }

  /** Lists of two documents that agree on `n` lines: equal as far as they reach within those lines. */
  lemma {:induction false} ListAgrees(c: Classifiers, lines: seq<string>, lines': seq<string>, i: nat, n: nat,
                                      ordered: bool)
    requires Agree(lines, lines', n) && i <= n
    ensures Min(ListEnd(c, lines, i, ordered), n) == Min(ListEnd(c, lines', i, ordered), n)
    ensures ListEnd(c, lines, i, ordered) == ListEnd(c, lines', i, ordered) <= n ==>
              Items(c, lines, i, ordered) == Items(c, lines', i, ordered)
    decreases n - i
  {
    hide While, Lazy, ItemText;
    if i < n && ItemAt(c, lines, i, ordered) {
      WhileAgrees(Lazy(c), lines, lines', i + 1, n);
      var e, e' := While(Lazy(c), lines, i + 1), While(Lazy(c), lines', i + 1);
      assert ListEnd(c, lines, i, ordered) == ListEnd(c, lines, e, ordered);
      assert ListEnd(c, lines', i, ordered) == ListEnd(c, lines', e', ordered);
      if e == e' <= n {
        AgreeSlice(lines, lines', n, i + 1, e);
        ListAgrees(c, lines, lines', e, n, ordered);
      }
    }
  }

  /** KEY: a block of the same kind with the same line range has the same content, an open or closed fence
      included, as soon as the documents agree on that range. */
  lemma {:induction false} SameExtentSameBody(c: Classifiers, lines: seq<string>, lines': seq<string>, i: nat, n: nat)
    requires Agree(lines, lines', n) && i < n
    requires BlockAt(c, lines, i).next == BlockAt(c, lines', i).next <= n
    requires KindOf(BlockAt(c, lines, i).body) == KindOf(BlockAt(c, lines', i).body)
    ensures BlockAt(c, lines, i).body == BlockAt(c, lines', i).body
  {
    hide While, InFence, InParagraph, ListEnd, Items, Join;
    var line, b := lines[i], BlockAt(c, lines, i).next;
    if c.fence(line).Some? {
      var p := InFence(c, c.fence(line).value.marker);
      WhileAgrees(p, lines, lines', i + 1, n);
      var e := While(p, lines, i + 1);
      AgreeSlice(lines, lines', n, i + 1, Min(e, n));
    } else if BlockAt(c, lines, i).body.Table? {
      AgreeSlice(lines, lines', n, i + 2, b);
    } else if c.item(line).Some? {
      ListAgrees(c, lines, lines', i, n, c.item(line).value.ordered);
    } else if BlockAt(c, lines, i).body.Paragraph? {
      AgreeSlice(lines, lines', n, i, b);
    }
  }

  /** A block whose following line is also shared is the same block. */
  lemma {:induction false} FollowedBlockIsStable(c: Classifiers, lines: seq<string>, lines': seq<string>, i: nat,
                                                 n: nat)
    requires Agree(lines, lines', n) && i < n && BlockAt(c, lines, i).next < n
    ensures BlockAt(c, lines', i) == BlockAt(c, lines, i)
  {
    hide While, InFence, IsRow, InParagraph, ListEnd, Items, Join;
    var line := lines[i];
    if c.fence(line).Some? {
      var p := InFence(c, c.fence(line).value.marker);
      WhileAgrees(p, lines, lines', i + 1, n);
    } else if c.heading(line).Some? || c.rule(line) {
    } else if c.row(line).Some? && c.separator(lines[i + 1]) {
      WhileAgrees(IsRow(c), lines, lines', i + 2, n);
    } else if c.item(line).Some? {
      ListAgrees(c, lines, lines', i, n, c.item(line).value.ordered);
    } else {
      WhileAgrees(InParagraph(c), lines, lines', i + 1, n);
    }
    SameExtentSameBody(c, lines, lines', i, n);
  }
}

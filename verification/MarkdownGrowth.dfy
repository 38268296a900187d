/**
 What the parse of a text says about the parse of the same text grown at its end
 (apps/vscode/media/markdown.js): which blocks are already final, and why comparing kind and offsets is
 enough to keep a rendered block.
 */
module MarkdownGrowth {
  import opened Text
  import opened MarkdownScan
  import opened MarkdownParse

  lemma {:induction false} OffsetsAgree(lines: seq<string>, lines': seq<string>, n: nat, i: nat)
    requires Agree(lines, lines', n) && i <= n
    ensures Offset(lines, i) == Offset(lines', i)
  {
    if i > 0 {
      OffsetsAgree(lines, lines', n, i - 1);
    }
  }

  lemma {:induction false} OffsetOfLastLine(text: string)
    ensures Offset(Split(text), |Lines(text)|) + |Rest(text)| == |text|
  {
    if text != "" {
      var init := text[..|text| - 1];
      OffsetOfLastLine(init);
      OffsetsAgree(Split(init), Split(text), |Lines(init)|, |Lines(init)|);
    }
  }

  /** The first line of a text that starts with an unterminated line only gets longer. */
  lemma FirstLineExtends(r: string, t: string)
    requires '\n' !in r
    ensures r <= Split(r + t)[0]
  {
    if '\n' in t {
      FirstExists(t, '\n');
      var j :| FirstAt(t, '\n', j);
      var line := r + t[..j];
      assert r + t == line + ['\n'] + t[j + 1..];
      LinesFirst(line, t[j + 1..]);
      assert Split(r + t)[0] == line;
    } else {
      NoNewline(r + t);
    }
  }

  /** Appending changes no complete line and only extends the last one. */
  lemma SplitGrows(s: string, t: string)
    ensures |Split(s)| <= |Split(s + t)|
    ensures Agree(Split(s), Split(s + t), |Lines(s)|)
    ensures Rest(s) <= Split(s + t)[|Lines(s)|]
  {
    hide Lines, Rest;
    LinesConcat(s, t);
    FirstLineExtends(Rest(s), t);
    var more := Split(Rest(s) + t);
    assert Split(s + t) == Lines(s) + more;
    assert Split(s + t)[|Lines(s)|] == more[0];
  }

  // ------------------------------------------------------------ final blocks

  /** Blocks whose following line both documents share are parsed identically, and so is all before them. */
  lemma {:induction false} ParseStable(c: Classifiers, lines: seq<string>, lines': seq<string>, i: nat, n: nat, k: nat)
    requires Agree(lines, lines', n) && i <= n
    requires k < |ParseFrom(c, lines, i)| && ParseFrom(c, lines, i)[k].next < n
    ensures k < |ParseFrom(c, lines', i)|
    ensures ParseFrom(c, lines', i)[..k + 1] == ParseFrom(c, lines, i)[..k + 1]
    decreases |lines| - i
  {
    hide BlockAt, Tiles;
    if c.blank(lines[i]) {
      NextBefore(c, lines, i, k);
      ParseStable(c, lines, lines', i + 1, n, k);
    } else {
      var sp := BlockAt(c, lines, i);
      NextBefore(c, lines, i, k);
      FollowedBlockIsStable(c, lines, lines', i, n);
      assert Stops(c, lines, sp) == Stops(c, lines', sp);
      if k > 0 {
        ParseStable(c, lines, lines', sp.next, n, k - 1);
        var rest, rest' := ParseFrom(c, lines, sp.next), ParseFrom(c, lines', sp.next);
        assert ([sp] + rest)[..k + 1] == [sp] + rest[..k];
        assert ([sp] + rest')[..k + 1] == [sp] + rest'[..k];
      }
    }
  }

  /** The first block of a parse, and the line it starts from, come before any later block's end. */
  lemma NextBefore(c: Classifiers, lines: seq<string>, i: nat, k: nat)
    requires i <= |lines| && k < |ParseFrom(c, lines, i)|
    ensures i < |lines| && i < ParseFrom(c, lines, i)[k].next
    ensures ParseFrom(c, lines, i)[0].next <= ParseFrom(c, lines, i)[k].next
  {
    hide BlockAt, ParseFrom, Stops, Tiles;
    var spans := ParseFrom(c, lines, i);
    BlocksTile(c, lines, i);
    SpansOrdered(c, lines, i, spans);
    assert i <= spans[k].first < spans[k].next <= |lines|;
    if k > 0 {
      assert spans[0].next <= spans[k].first;
    }
  }

  /** The line after a block is newline-terminated: some newline lies at or after the block's end. */
  ghost predicate Followed(text: string, b: Block)
  {
    b.end <= |text| && '\n' in text[b.end..]
  }

  lemma FollowedInLines(text: string, i: nat)
    requires i <= |Split(text)|
    requires Offset(Split(text), i) <= |text| && '\n' in text[Offset(Split(text), i)..]
    ensures i < |Lines(text)|
  {
    var lines, n := Split(text), |Lines(text)|;
    if i >= n {
      OffsetsGrow(lines, n, i);
      OffsetOfLastLine(text);
      RestIsSuffix(text);
    }
  }

  lemma {:induction false} RestIsSuffix(text: string)
    ensures |Rest(text)| <= |text| && text[|text| - |Rest(text)|..] == Rest(text)
  {
    if text != "" {
      RestIsSuffix(text[..|text| - 1]);
    }
  }

  /** MAIN: a block whose following line is newline-terminated is parsed identically after every append,
      and so are all the blocks before it. */
  lemma FollowedBlocksAreFinal(c: Classifiers, s: string, t: string, k: nat)
    requires k < |Parse(c, s).blocks| && Followed(s, Parse(c, s).blocks[k])
    ensures k < |Parse(c, s + t).blocks|
    ensures Parse(c, s + t).blocks[..k + 1] == Parse(c, s).blocks[..k + 1]
  {
    hide ParseFrom, Stops, Lines, Rest, Offset, BlockAt;
    var lines, lines' := Split(s), Split(s + t);
    var spans := ParseFrom(c, lines, 0);
    var n := |Lines(s)|;
    FollowedInLines(s, spans[k].next);
    SplitGrows(s, t);
    ParseStable(c, lines, lines', 0, n, k);
    var spans' := ParseFrom(c, lines', 0);
    forall j | 0 <= j <= k ensures Place(lines', spans'[j]) == Place(lines, spans[j]) {
      assert spans'[j] == spans'[..k + 1][j] == spans[..k + 1][j] == spans[j];
      BlocksTile(c, lines, 0);
      SpansOrdered(c, lines, 0, spans);
      assert j < k ==> spans[j].next <= spans[k].first;
      OffsetsAgree(lines, lines', n, spans[j].first);
      OffsetsAgree(lines, lines', n, spans[j].next);
    }
  }

  // ------------------------------------------------------------- kept blocks

  lemma OffsetInjective(lines: seq<string>, i: nat, j: nat)
    requires i <= |lines| && j <= |lines| && Offset(lines, i) == Offset(lines, j)
    ensures i == j
  {
    if i < j { OffsetsGrow(lines, i, j); } else { OffsetsGrow(lines, j, i); }
  }

  /** Equal offsets in a text and in its extension are equal lines, and the lines up to there are shared. */
  lemma SameOffsetSameLine(s: string, t: string, i: nat, i': nat)
    requires i <= |Split(s)| && i' <= |Split(s + t)|
    requires Offset(Split(s), i) == Offset(Split(s + t), i')
    ensures i == i' && Agree(Split(s), Split(s + t), i)
  {
    hide Lines, Rest;
    var lines, lines', n := Split(s), Split(s + t), |Lines(s)|;
    SplitGrows(s, t);
    OffsetsAgree(lines, lines', n, n);
    if i <= n {
      OffsetsAgree(lines, lines', n, i);
      OffsetInjective(lines', i, i');
    } else {
      assert i == n + 1;
      if i' <= n {
        OffsetsGrow(lines', i', n);
      } else {
        OffsetsGrow(lines', n + 1, i');
        assert Offset(lines', n + 1) == Offset(lines', n) + |lines'[n]| + 1;
        assert Offset(lines, n + 1) == Offset(lines, n) + |lines[n]| + 1;
        assert lines[n] == lines'[n];
      }
    }
  }

  /** MAIN: if a block of the grown text has the kind, start and end of a block of the text before, it has
      its content too. */
  lemma KeptBlocksMatch(c: Classifiers, s: string, t: string, k: nat)
    requires k < |Parse(c, s).blocks| && k < |Parse(c, s + t).blocks|
    requires var b, b' := Parse(c, s).blocks[k], Parse(c, s + t).blocks[k];
             KindOf(b.body) == KindOf(b'.body) && b.start == b'.start && b.end == b'.end
    ensures Parse(c, s).blocks[k] == Parse(c, s + t).blocks[k]
  {
    hide ParseFrom, Stops, Lines, Rest, Offset, BlockAt, Tiles;
    var lines, lines' := Split(s), Split(s + t);
    var spans, spans' := ParseFrom(c, lines, 0), ParseFrom(c, lines', 0);
    SpanIsBlockAt(c, lines, k);
    SpanIsBlockAt(c, lines', k);
    SameOffsetSameLine(s, t, spans[k].first, spans'[k].first);
    SameOffsetSameLine(s, t, spans[k].next, spans'[k].next);
    SameExtentSameBody(c, lines, lines', spans[k].first, spans[k].next);
  }

  lemma SpanIsBlockAt(c: Classifiers, lines: seq<string>, k: nat)
    requires k < |ParseFrom(c, lines, 0)|
    ensures ParseFrom(c, lines, 0)[k] == BlockAt(c, lines, ParseFrom(c, lines, 0)[k].first)
  {
    BlocksTile(c, lines, 0);
    TileIsBlockAt(c, lines, 0, ParseFrom(c, lines, 0), k);
  }

  lemma {:induction false} TileIsBlockAt(c: Classifiers, lines: seq<string>, i: nat, spans: seq<Span>, k: nat)
    requires Tiles(c, lines, i, spans) && k < |spans|
    ensures spans[k].first < |lines| && spans[k] == BlockAt(c, lines, spans[k].first)
    decreases k
  {
    hide BlockAt, Stops;
    if k > 0 {
      TileIsBlockAt(c, lines, spans[0].next, spans[1..], k - 1);
    }
  }

  // ------------------------------------------------------------- final nodes

  /** The incremental renderer may keep the node of this block for good. */
  ghost predicate Final(c: Classifiers, s: string, k: nat)
  {
    && k < |Parse(c, s).blocks|
    && Followed(s, Parse(c, s).blocks[k])
    && Parse(c, s).blocks[k].end <= Parse(c, s).partialStart
  }

  /** Within a parse, a block ends at or before the partial start exactly when it did not end the parse. */
  lemma BeforePartial(c: Classifiers, s: string, k: nat)
    requires k < |ParseFrom(c, Split(s), 0)|
    requires Offset(Split(s), ParseFrom(c, Split(s), 0)[k].next) <= |s|
    ensures Parse(c, s).blocks[k].end <= Parse(c, s).partialStart <==> !Stops(c, Split(s), ParseFrom(c, Split(s), 0)[k])
  {
    hide ParseFrom, Stops, Offset, Split, BlockAt, Tiles;
    var lines := Split(s);
    var spans := ParseFrom(c, lines, 0);
    var last := |spans| - 1;
    BlocksTile(c, lines, 0);
    SpansOrdered(c, lines, 0, spans);
    OnlyLastStops(c, lines, 0, spans, k);
    OffsetsGrow(lines, spans[last].first, spans[last].next);
    if k < last {
      OffsetsGrow(lines, spans[k].next, spans[last].first);
    }
  }

  lemma {:induction false} OnlyLastStops(c: Classifiers, lines: seq<string>, i: nat, spans: seq<Span>, k: nat)
    requires Located(lines, spans) && Tiles(c, lines, i, spans) && k < |spans|
    ensures k < |spans| - 1 ==> !Stops(c, lines, spans[k])
    decreases k
  {
    hide BlockAt, Stops;
    if 0 < k < |spans| - 1 {
      OnlyLastStops(c, lines, spans[0].next, spans[1..], k - 1);
    }
  }

  /** MAIN: once final, a block stays final through every further append. */
  lemma FinalStaysFinal(c: Classifiers, s: string, t: string, k: nat)
    requires Final(c, s, k)
    ensures Final(c, s + t, k)
  {
    hide ParseFrom, Offset, BlockAt, Lines, Rest;
    var lines, lines' := Split(s), Split(s + t);
    var spans, spans' := ParseFrom(c, lines, 0), ParseFrom(c, lines', 0);
    FollowedBlocksAreFinal(c, s, t, k);
    var b := Parse(c, s).blocks[k];
    assert Parse(c, s + t).blocks[k] == b by {
      assert Parse(c, s + t).blocks[..k + 1][k] == Parse(c, s).blocks[..k + 1][k];
    }
    assert (s + t)[b.end..] == s[b.end..] + t;
    FollowedInLines(s, spans[k].next);
    SplitGrows(s, t);
    ParseStable(c, lines, lines', 0, |Lines(s)|, k);
    assert spans'[k] == spans[k] by { assert spans'[..k + 1][k] == spans[..k + 1][k]; }
    BeforePartial(c, s, k);
    BeforePartial(c, s + t, k);
    assert lines'[spans[k].next] == lines[spans[k].next];
  }

  // ---------------------------------------------------- offsets mean the text

  /** Line `k` lies at its offset in the text, and a newline follows every line but the last. */
  ghost predicate LiesAt(text: string, k: nat)
    requires k < |Split(text)|
  {
    var o, line := Offset(Split(text), k), Split(text)[k];
    && o + |line| <= |text| && text[o..o + |line|] == line
    && (k < |Lines(text)| ==> o + |line| < |text| && text[o + |line|] == '\n')
  }

  /** The unfinished last line is the end of the text. */
  lemma LastLineAt(text: string)
    ensures LiesAt(text, |Lines(text)|)
  {
    hide Lines, Rest, Offset;
    OffsetOfLastLine(text);
    RestIsSuffix(text);
  }

  /** One more character moves no complete line. */
  lemma LineStaysAt(init: string, ch: char, k: nat)
    requires k < |Lines(init)| && LiesAt(init, k)
    ensures k < |Lines(init + [ch])| && LiesAt(init + [ch], k)
  {
    hide Offset, Lines, Rest;
    var text := init + [ch];
    SplitGrows(init, [ch]);
    OffsetsAgree(Split(init), Split(text), |Lines(init)|, k);
    var o, line := Offset(Split(init), k), Split(init)[k];
    assert text[o..o + |line|] == init[o..o + |line|];
  }

  /** A newline makes the last line complete, where it is. */
  lemma LineCompletes(init: string)
    ensures var text := init + ['\n'];
            |Lines(text)| == |Lines(init)| + 1 && LiesAt(text, |Lines(init)|)
  {
    hide Offset;
    var text, n := init + ['\n'], |Lines(init)|;
    assert text[..|text| - 1] == init;
    OffsetOfLastLine(init);
    OffsetsAgree(Split(init), Split(text), n, n);
    RestIsSuffix(init);
    assert text[|init| - |Rest(init)|..|init|] == init[|init| - |Rest(init)|..];
  }

  lemma {:induction false} LineAt(text: string, k: nat)
    requires k <= |Lines(text)|
    ensures LiesAt(text, k)
  {
    hide LiesAt, Offset;
    if k == |Lines(text)| {
      LastLineAt(text);
    } else {
      var init, ch := text[..|text| - 1], text[|text| - 1];
      assert text == init + [ch];
      if k < |Lines(init)| {
        LineAt(init, k);
        LineStaysAt(init, ch, k);
      } else {
        LineCompletes(init);
      }
    }
  }

  lemma {:induction false} JoinSnoc(lines: seq<string>, last: string)
    requires lines != []
    ensures Join(lines + [last]) == Join(lines) + "\n" + last
  {
    assert (lines + [last])[1..] == lines[1..] + [last];
    if |lines| == 1 {
      assert Join([last]) == last;
    } else {
      JoinSnoc(lines[1..], last);
    }
  }

  lemma JoinOne(line: string)
    ensures Join([line]) == line
  {
  }

  lemma SliceAround(text: string, a: nat, m: nat, b: nat)
    requires a <= m < b <= |text|
    ensures text[a..b] == text[a..m] + [text[m]] + text[m + 1..b]
  {
  }

  /** Consecutive lines, joined, are the slice of the text between their offsets. */
  lemma {:induction false} SliceOfLines(text: string, i: nat, j: nat)
    requires i < j <= |Split(text)|
    ensures Offset(Split(text), i) <= Offset(Split(text), j) - 1 <= |text|
    ensures text[Offset(Split(text), i)..Offset(Split(text), j) - 1] == Join(Split(text)[i..j])
    decreases j
  {
    hide Lines, Rest, Split, Offset, Join;
    var lines := Split(text);
    LineAt(text, j - 1);
    OffsetNext(lines, j - 1);
    var a, o := Offset(lines, i), Offset(lines, j - 1);
    if i == j - 1 {
      assert lines[i..j] == [lines[i]];
      JoinOne(lines[i]);
    } else {
      SliceOfLines(text, i, j - 1);
      LineAt(text, j - 2);
      OffsetNext(lines, j - 2);
      assert lines[i..j] == lines[i..j - 1] + [lines[j - 1]];
      JoinSnoc(lines[i..j - 1], lines[j - 1]);
      SliceAround(text, a, o - 1, o + |lines[j - 1]|);
    }
  }

  /** MAIN: the offsets point into the text: a paragraph's text is exactly the slice they delimit, and a fence's code
      is the slice between its opening line and its closing line or the end. */
  lemma BlocksQuoteTheSource(c: Classifiers, text: string, k: nat)
    requires k < |Parse(c, text).blocks|
    ensures var b, sp := Parse(c, text).blocks[k], ParseFrom(c, Split(text), 0)[k];
            && b.start < b.end <= |text| + 1
            && (b.body.Paragraph? ==> b.body.text == text[b.start..b.end - 1])
            && (b.body.Code? ==>
                  var from := b.start + |Split(text)[sp.first]| + 1;
                  var to := if b.body.closed then Offset(Split(text), sp.next - 1) else b.end;
                  from <= to && b.body.code == if from < to then text[from..to - 1] else "")
  {
    hide ParseFrom, Stops, Lines, Rest, Offset, Tiles, Join, Items, ListEnd, While;
    var lines := Split(text);
    var sp := ParseFrom(c, lines, 0)[k];
    SpanIsBlockAt(c, lines, k);
    SliceOfLines(text, sp.first, sp.next);
    OffsetNext(lines, sp.first);
    if sp.body.Code? {
      var e := if sp.body.closed then sp.next - 1 else sp.next;
      assert sp.body.code == Join(lines[sp.first + 1..e]);
      if sp.first + 1 < e {
        SliceOfLines(text, sp.first + 1, e);
      } else {
        assert lines[sp.first + 1..e] == [];
        JoinNothing();
      }
    }
  }

  lemma OffsetNext(lines: seq<string>, i: nat)
    requires i < |lines|
    ensures Offset(lines, i + 1) == Offset(lines, i) + |lines[i]| + 1
  {
  }

  lemma JoinNothing()
    ensures Join([]) == ""
  {
  }

  // ------------------------------------------ a trailing newline is not enough

  /** Lines that start with a dash are list items. */
  const Dashes := Classifiers(
    (s: string) => s == "",
    (s: string) => None, (s: string) => None, (s: string) => false, (s: string) => None, (s: string) => false,
    (s: string) => if s != "" && s[0] == '-' then Some(Item(false, s[1..])) else None,
    (s: string) => s, (s: string) => s)

  /** A list whose text ends in a newline still grows when an item is appended. */
  lemma TrailingNewlineIsNotFinal()
    ensures Split("-a\n") == ["-a", ""] && Split("-a\n" + "-b") == ["-a", "-b"]
    ensures BlockAt(Dashes, ["-a", ""], 0).body == List(false, ["a"])
    ensures BlockAt(Dashes, ["-a", "-b"], 0).body == List(false, ["a", "b"])
  {
    hide Items, BlockAt, Split;
    DashSplits();
    OneItem(["-a", ""], 0, "a");
    OneItem(["-a", "-b"], 0, "a");
    OneItem(["-a", "-b"], 1, "b");
    NoItem(["-a", ""], 1);
    NoItem(["-a", "-b"], 2);
    DashBlock(["-a", ""]);
    DashBlock(["-a", "-b"]);
  }

  lemma DashSplits()
    ensures Split("-a\n") == ["-a", ""] && Split("-a\n" + "-b") == ["-a", "-b"]
  {
    LinesFirst("-a", "");
    LinesFirst("-a", "-b");
    NoNewline("-b");
    assert "-a\n" == "-a" + ['\n'] + "" && "-a\n" + "-b" == "-a" + ['\n'] + "-b";
  }

  lemma DashBlock(lines: seq<string>)
    requires lines != [] && lines[0] != "" && lines[0][0] == '-'
    ensures BlockAt(Dashes, lines, 0).body == List(false, Items(Dashes, lines, 0, false))
  {
    hide Items, ListEnd, While;
  }

  lemma NoItem(lines: seq<string>, i: nat)
    requires i <= |lines| && (i < |lines| ==> lines[i] == "")
    ensures Items(Dashes, lines, i, false) == []
  {
  }

  lemma OneItem(lines: seq<string>, i: nat, text: string)
    requires i < |lines| && lines[i] == "-" + text
    requires i + 1 < |lines| ==> lines[i + 1] == "" || lines[i + 1][0] == '-'
    ensures Items(Dashes, lines, i, false) == [text] + Items(Dashes, lines, i + 1, false)
  {
    assert lines[i][1..] == text;
    assert While(Lazy(Dashes), lines, i + 1) == i + 1;
    assert lines[i + 1..i + 1] == [];
  }
}

/**
 Transcript windowing of the chat panel (apps/vscode/media/chat.js): prefix offsets over cached heights, the
 anchor search, and a window of rows between two spacers that must lay out like the whole list.
 The list is a flex column: consecutive children are separated by a fixed gap.
 */
module TranscriptWindow {
  import opened Text

  const GAP := 12
  const ESTIMATE := 64
  const MIN_ROWS := 8
  const OVERSCAN := 12

  type Heights = map<nat, int>

  function HeightAt(hs: Heights, i: nat): (h: int)
    ensures h > 0
  {
    if i in hs && hs[i] > 0 then hs[i] else ESTIMATE
  }

  /** Where entry `i` starts in the whole list. */
  function Prefix(hs: Heights, i: nat): (o: int)
  {
    if i == 0 then 0 else Prefix(hs, i - 1) + HeightAt(hs, i - 1) + GAP
  }

  // ----------------------------------------------------------------- layout

  /** Height of a flex column. */
  function Stack(cs: seq<int>): (h: int)
  {
    if cs == [] then 0 else if |cs| == 1 then cs[0] else Stack(cs[..|cs| - 1]) + GAP + cs[|cs| - 1]
  }

  /** Where child `k` of a flex column starts. */
  function TopOf(cs: seq<int>, k: nat): (o: int)
    requires k <= |cs|
  {
    if k == 0 then 0 else TopOf(cs, k - 1) + cs[k - 1] + GAP
  }

  function AllRows(hs: Heights, from: nat, to: nat): (rs: seq<int>)
    requires from <= to
    ensures |rs| == to - from
  {
    seq(to - from, k requires 0 <= k < to - from => HeightAt(hs, from + k))
  }

  /** The children of the container: an optional spacer, the rendered rows, an optional spacer. */
  datatype Dom = Dom(top: Option<int>, rows: seq<int>, bottom: Option<int>)

  function OptSeq(o: Option<int>): (s: seq<int>) { if o.Some? then [o.value] else [] }

  function Children(d: Dom): (cs: seq<int>) { OptSeq(d.top) + d.rows + OptSeq(d.bottom) }

  function RowChild(d: Dom, k: nat): (n: nat) { |OptSeq(d.top)| + k }

  /** The window lays out like the whole list: same height, and every row where the whole list has it. */
  ghost predicate Faithful(hs: Heights, total: nat, start: nat, d: Dom)
  {
    && Stack(Children(d)) == Stack(AllRows(hs, 0, total))
    && forall k :: 0 <= k < |d.rows| ==> TopOf(Children(d), RowChild(d, k)) == Prefix(hs, start + k)
  }

  lemma {:induction false} StackIsTop(cs: seq<int>)
    requires cs != []
    ensures Stack(cs) == TopOf(cs, |cs|) - GAP
  {
    if |cs| > 1 {
      var init := cs[..|cs| - 1];
      StackIsTop(init);
      TopOfPrefix(init, [cs[|cs| - 1]], |init|);
      assert init + [cs[|cs| - 1]] == cs;
    } else {
      assert TopOf(cs, 1) == TopOf(cs, 0) + cs[0] + GAP;
    }
  }

  lemma {:induction false} TopOfPrefix(a: seq<int>, b: seq<int>, k: nat)
    requires k <= |a|
    ensures TopOf(a + b, k) == TopOf(a, k)
  {
    if k > 0 {
      TopOfPrefix(a, b, k - 1);
    }
  }

  lemma {:induction false} TopOfRows(hs: Heights, before: seq<int>, from: nat, to: nat, after: seq<int>, k: nat)
    requires from <= to && k <= to - from
    ensures TopOf(before + AllRows(hs, from, to) + after, |before| + k) ==
            TopOf(before, |before|) + Prefix(hs, from + k) - Prefix(hs, from)
  {
    var all := before + AllRows(hs, from, to) + after;
    if k == 0 {
      assert all == before + (AllRows(hs, from, to) + after);
      TopOfPrefix(before, AllRows(hs, from, to) + after, |before|);
    } else {
      TopOfRows(hs, before, from, to, after, k - 1);
      assert all[|before| + k - 1] == HeightAt(hs, from + k - 1);
    }
  }

  lemma FullHeight(hs: Heights, total: nat)
    requires total > 0
    ensures Stack(AllRows(hs, 0, total)) == Prefix(hs, total) - GAP
  {
    var rows := AllRows(hs, 0, total);
    StackIsTop(rows);
    assert [] + rows + [] == rows;
    TopOfRows(hs, [], 0, total, [], total);
  }

  lemma {:induction false} PrefixGrows(hs: Heights, i: nat, j: nat)
    requires i <= j
    ensures Prefix(hs, i) + (j - i) * (GAP + 1) <= Prefix(hs, j)
    decreases j
  {
    if i < j {
      PrefixGrows(hs, i, j - 1);
    }
  }

  function TopSpacer(hs: Heights, start: nat): (o: Option<int>)
  {
    if start > 0 then Some(Max(0, Prefix(hs, start) - GAP)) else None
  }

  function BottomSpacer(hs: Heights, end: nat, total: nat): (o: Option<int>)
  {
    if end < total then Some(Max(0, Prefix(hs, total) - Prefix(hs, end) - GAP)) else None
  }

  /** Every row of the window starts where the whole list has it, whatever the bottom spacer is. */
  lemma RowsInPlace(hs: Heights, start: nat, end: nat, bottom: Option<int>, k: nat)
    requires start <= end && k <= end - start
    ensures var d := Dom(TopSpacer(hs, start), AllRows(hs, start, end), bottom);
            TopOf(Children(d), RowChild(d, k)) == Prefix(hs, start + k)
  {
    var d := Dom(TopSpacer(hs, start), AllRows(hs, start, end), bottom);
    var before := OptSeq(d.top);
    TopOfRows(hs, before, start, end, OptSeq(d.bottom), k);
    PrefixGrows(hs, 0, start);
    if start > 0 {
      assert TopOf(before, 1) == TopOf(before, 0) + before[0] + GAP;
    }
  }

  /** The height of a window, spacers included. */
  lemma WindowHeight(hs: Heights, start: nat, end: nat, bottom: Option<int>)
    requires start < end
    ensures var d := Dom(TopSpacer(hs, start), AllRows(hs, start, end), bottom);
            Stack(Children(d)) == Prefix(hs, end) - GAP + (if bottom.Some? then bottom.value + GAP else 0)
  {
    hide Prefix;
    var d := Dom(TopSpacer(hs, start), AllRows(hs, start, end), bottom);
    var cs := Children(d);
    RowsInPlace(hs, start, end, bottom, end - start);
    StackIsTop(cs);
    if bottom.Some? {
      assert cs[|cs| - 1] == bottom.value;
      assert TopOf(cs, |cs|) == TopOf(cs, |cs| - 1) + cs[|cs| - 1] + GAP;
    }
  }

  /** MAIN: spacers and gaps reproduce the layout of the unwindowed list exactly, for every window. */
  lemma WindowIsFaithful(hs: Heights, total: nat, start: nat, end: nat)
    requires start < end <= total || start == end == total == 0
    ensures Faithful(hs, total, start, Dom(TopSpacer(hs, start), AllRows(hs, start, end), BottomSpacer(hs, end, total)))
  {
    var d := Dom(TopSpacer(hs, start), AllRows(hs, start, end), BottomSpacer(hs, end, total));
    if start < end {
      WindowHeight(hs, start, end, d.bottom);
      FullHeight(hs, total);
      PrefixGrows(hs, end, total);
      forall k | 0 <= k < |d.rows| ensures TopOf(Children(d), RowChild(d, k)) == Prefix(hs, start + k) {
        RowsInPlace(hs, start, end, d.bottom, k);
      }
    } else {
      assert Children(d) == [];
    }
  }

  // ----------------------------------------------------------------- window

  function Rows(client: int): (n: nat)
    ensures n >= MIN_ROWS
  {
    var c := if client > 0 then client else 600;
    var visible := (c + ESTIMATE + GAP - 1) / (ESTIMATE + GAP);
    Max(MIN_ROWS, visible + OVERSCAN)
  }

  datatype Range = Range(start: nat, end: nat)

  function Window(total: nat, rows: nat, pin: bool, anchor: nat): (r: Range)
    ensures r.start <= total
  {
    if pin then Range(Max(0, total - rows), total)
    else
      var start := Max(0, Min(anchor - rows / 2, Max(0, total - rows)));
      Range(start, Min(total, start + rows))
  }

  /** The rows cover the viewport at the estimated height, with the overscan and no more, and never fewer than the
      minimum; a viewport of no height counts as 600 pixels. */
  lemma RowsCover(client: int)
    ensures var c, pitch, n := if client > 0 then client else 600, ESTIMATE + GAP, Rows(client);
            && n >= MIN_ROWS && (n - OVERSCAN) * pitch >= c
            && (n > MIN_ROWS ==> (n - OVERSCAN - 1) * pitch < c)
  {
  }

  /** The window is as large as it can be. Pinned, it ends with the list. Unpinned, it contains any valid anchor, with
      half of the rows above it unless an end of the list is in the way. */
  lemma WindowShowsAnchor(total: nat, client: int, pin: bool, anchor: nat)
    ensures var n, w := Rows(client), Window(total, Rows(client), pin, anchor);
            && w.start <= w.end <= total && w.end - w.start == Min(total, n)
            && (pin ==> w.end == total)
            && (!pin && anchor < total ==>
                  && w.start <= anchor < w.end
                  && (w.start > 0 ==> anchor - w.start >= n / 2)
                  && (w.end < total ==> anchor - w.start <= n / 2))
  {
    hide Rows;
  }

  // ----------------------------------------------------------------- anchor

  datatype Anchor = Anchor(index: nat, offset: real)

  ghost predicate IsPrefix(hs: Heights, total: nat, prefix: seq<int>)
  {
    |prefix| == total + 1 && forall i :: 0 <= i <= total ==> prefix[i] == Prefix(hs, i)
  }

  /** Where an anchor is, in a list of `total` entries. */
  ghost function AnchorTop(hs: Heights, total: nat, a: Anchor): (top: Option<real>)
  {
    if a.index <= total then Some(Prefix(hs, a.index) as real + a.offset) else None
  }

  method PrefixOf(hs: Heights, total: nat) returns (prefix: seq<int>)
    ensures IsPrefix(hs, total, prefix)
  {
    prefix := [0];
    for i := 0 to total
      invariant IsPrefix(hs, i, prefix)
    {
      prefix := prefix + [prefix[i] + HeightAt(hs, i) + GAP];
    }
  }

  /** The binary search finds the last entry that starts at or above `scrollTop`, and restoring the anchor gives
      `scrollTop` back. */
  method AnchorFromScroll(prefix: seq<int>, scrollTop: real, ghost hs: Heights, ghost total: nat) returns (a: Anchor)
    requires IsPrefix(hs, total, prefix)
    ensures total > 0 ==> a.index < total
    ensures a.index <= total && a.offset >= 0.0
    ensures scrollTop >= 0.0 ==>
              && prefix[a.index] as real <= scrollTop
              && (forall i :: 0 <= i < total && prefix[i] as real <= scrollTop ==> i <= a.index)
              && prefix[a.index] as real + a.offset == scrollTop
    ensures scrollTop < 0.0 ==> a == Anchor(0, 0.0)
    ensures scrollTop >= 0.0 ==> AnchorTop(hs, total, a) == Some(scrollTop)
  {
    var lo, hi := 0, Max(0, |prefix| - 2);
    while lo < hi
      invariant 0 <= lo <= hi <= Max(0, total - 1)
      invariant prefix[lo] as real <= scrollTop || lo == 0
      invariant forall i :: hi < i < total ==> prefix[i] as real > scrollTop
      decreases hi - lo
    {
      var mid := (lo + hi + 1) / 2;
      if prefix[mid] as real <= scrollTop {
        lo := mid;
      } else {
        forall i | mid <= i < total ensures prefix[i] as real > scrollTop {
          PrefixGrows(hs, mid, i);
        }
        hi := mid - 1;
      }
    }
    assert prefix[0] == 0;
    if scrollTop < 0.0 && lo > 0 {
      PrefixGrows(hs, 0, lo);
    }
    var d := scrollTop - prefix[lo] as real;
    a := Anchor(lo, if d >= 0.0 then d else 0.0);
  }

  // ----------------------------------------------------------------- render

  class Transcript {
    var heights: Heights
    var windowed: bool
    var start: nat
    var end: nat
    var total: nat
    var dom: Dom
    var scrollTop: Option<real>   // none: the value written was not a number

    constructor ()
      ensures !windowed && heights == map[]
    {
      heights, windowed, start, end, total, dom, scrollTop := map[], false, 0, 0, 0, Dom(None, [], None), Some(0.0);
    }

    ghost predicate LaidOut()
      reads this
    {
      Faithful(heights, total, start, dom)
    }

    /** The rows on screen are the window's, at the cached heights, under the right top spacer. */
    ghost predicate RowsCurrent()
      reads this
    {
      start <= end <= total && dom.rows == AllRows(heights, start, end) && dom.top == TopSpacer(heights, start)
    }

    /** The rows and both spacers are current. */
    ghost predicate Settled()
      reads this
    {
      RowsCurrent() && dom.bottom == BottomSpacer(heights, end, total)
    }

    /** Cache the heights of the rendered rows that have one. */
    method Measure(measured: seq<int>)
      modifies this`heights
      ensures forall i: nat :: HeightAt(heights, i) ==
                (if start <= i < start + |measured| && measured[i - start] > 0 then measured[i - start]
                 else HeightAt(old(heights), i))
    {
      for k := 0 to |measured|
        invariant forall i: nat :: HeightAt(heights, i) ==
                    (if start <= i < start + k && measured[i - start] > 0 then measured[i - start]
                     else HeightAt(old(heights), i))
      {
        if measured[k] > 0 {
          heights := heights[start + k := measured[k]];
        }
      }
    }

    /** The window is unchanged and so is every visible row: only the bottom spacer follows the list. */
    method Offscreen(newTotal: nat)
      requires start <= end <= total <= newTotal && (newTotal > 0 ==> start < end)
      modifies this`dom, this`total
      ensures total == newTotal
      ensures old(Settled()) ==> RowsCurrent()
      ensures old(Settled()) ==> (LaidOut() <==> old(end < total) || newTotal == end)
      ensures old(Settled()) ==> (Settled() <==> old(end < total) || newTotal == end)
    {
      var prefix := PrefixOf(heights, newTotal);
      if dom.bottom.Some? {
        dom := dom.(bottom := Some(Max(0, prefix[newTotal] - prefix[end] - GAP)));
      }
      total := newTotal;
      if old(Settled()) {
        if start < end {
          OffscreenLayout(heights, start, end, newTotal, dom.bottom);
        } else {
          WindowIsFaithful(heights, 0, 0, 0);
        }
      }
    }

    /** Build one window: rows between spacers, the rows measured and the spacers set from the cached heights. */
    method Build(newTotal: nat, w: Range, measured: seq<int>)
      requires w.start < w.end <= newTotal || w.start == w.end == newTotal == 0
      requires |measured| == w.end - w.start
      modifies this`heights, this`windowed, this`start, this`end, this`total, this`dom
      ensures windowed && start == w.start && end == w.end && total == newTotal
      ensures (forall k :: 0 <= k < |measured| ==> measured[k] > 0) ==> Settled() && LaidOut()
    {
      hide Prefix, Faithful, HeightAt;
      start, end, total, windowed := w.start, w.end, newTotal, true;
      Measure(measured);
      var prefix := PrefixOf(heights, newTotal);
      dom := Dom(if start > 0 then Some(Max(0, prefix[start] - GAP)) else None,
                 measured,
                 if end < newTotal then Some(Max(0, prefix[newTotal] - prefix[end] - GAP)) else None);
      assert (forall k :: 0 <= k < |measured| ==> measured[k] > 0) ==> dom.rows == AllRows(heights, start, end);
      WindowIsFaithful(heights, total, start, end);
    }

    /** The window `renderTranscriptWindow` picks. */
    function Picked(newTotal: nat, client: int, pin: bool, anchor: Option<Anchor>): (w: Range)
    {
      Window(newTotal, Rows(client), pin, if anchor.Some? then anchor.value.index else 0)
    }

    /** The off-screen branch is taken for a window that reached the end of the list, and the list grew. */
    ghost predicate CutShort(newTotal: nat, w: Range, pin: bool, visibleSame: bool)
      reads this
    {
      windowed && w == Range(start, end) && !pin && visibleSame && end == total < newTotal
    }

    /** `renderTranscriptWindow`: keep the window, follow the list off screen, or build a window, and then put
        the anchored row back at its place. `sameKeys` and `visibleSame` are the key comparisons; `measure`
        gives a rendered row's height. */
    method Render(newTotal: nat, client: int, pin: bool, anchor: Option<Anchor>, sameKeys: bool, visibleSame: bool,
                  measure: nat -> int)
      requires windowed ==> start <= end <= total
      modifies this
      ensures windowed && total == newTotal && Range(start, end) == Picked(newTotal, client, pin, anchor)
      ensures old(windowed ==> Settled()) && (forall i :: start <= i < end ==> measure(i) > 0) ==>
                var cut := old(CutShort(newTotal, Picked(newTotal, client, pin, anchor), pin, visibleSame));
                RowsCurrent() && (LaidOut() <==> !cut) && (Settled() <==> !cut)
      ensures !pin && anchor.Some? && (old(!windowed) || start != old(start) || end != old(end)) ==>
                scrollTop == AnchorTop(heights, newTotal, anchor.value)
      ensures end - start == Min(newTotal, Rows(client)) && (pin ==> end == newTotal)
      ensures pin ==> scrollTop == Some(Stack(Children(dom)) as real)
    {
      hide Prefix, Faithful, HeightAt, Rows, TopSpacer, BottomSpacer, AllRows, AnchorTop, Stack, Children,
           Window;
      var w := Picked(newTotal, client, pin, anchor);
      WindowShowsAnchor(newTotal, client, pin, if anchor.Some? then anchor.value.index else 0);
      var windowSame := windowed && w.start == start && w.end == end;
      if windowSame && sameKeys && newTotal == total {
        if old(Settled()) {
          WindowIsFaithful(heights, total, start, end);
        }
      } else if windowSame && !pin && newTotal >= total && end <= total && visibleSame {
        Offscreen(newTotal);
        return;
      } else {
        Build(newTotal, w, seq(w.end - w.start, k requires 0 <= k < w.end - w.start => measure(w.start + k)));
      }
      PlaceScroll(pin, anchor);
    }

    /** Scroll to the bottom, or put the anchored row back at its place. An anchor past the end of a list that shrank
        has no place: the value written is not a number. */
    method PlaceScroll(pin: bool, anchor: Option<Anchor>)
      modifies this`scrollTop
      ensures pin ==> scrollTop == Some(Stack(Children(dom)) as real)
      ensures !pin && anchor.None? ==> scrollTop == old(scrollTop)
      ensures !pin && anchor.Some? ==> scrollTop == AnchorTop(heights, total, anchor.value)
    {
      if pin {
        scrollTop := Some(Stack(Children(dom)) as real);
      } else if anchor.Some? {
        var prefix := PrefixOf(heights, total);
        var i := anchor.value.index;
        scrollTop := if i < |prefix| then Some(prefix[i] as real + anchor.value.offset) else None;
      }
    }
  }

  /** A reader anchored near the end of a list: appending one entry takes the off-screen branch of a window
      that had no bottom spacer, and the new entry's height is missing from the layout. */
  lemma AppendBelowWindowIsLost(hs: Heights)
    ensures Window(200, Rows(600), false, 190) == Range(180, 200) == Window(201, Rows(600), false, 190)
    ensures Faithful(hs, 200, 180, Dom(TopSpacer(hs, 180), AllRows(hs, 180, 200), None))
    ensures !Faithful(hs, 201, 180, Dom(TopSpacer(hs, 180), AllRows(hs, 180, 200), None))
  {
    hide Prefix, Stack, TopOf;
    assert Rows(600) == 20;
    OffscreenLayout(hs, 180, 200, 200, None);
    OffscreenLayout(hs, 180, 200, 201, None);
  }

  /** `liveNodeAt` indexes the children by the row's distance from the window start, which skips no spacer. */
  function LiveNodeIndex(start: nat, i: nat): (n: int) { i - start }

  /** It finds row `i` exactly when the window starts at the first entry. */
  lemma LiveNodeFoundIff(hs: Heights, start: nat, end: nat, bottom: Option<int>, i: nat)
    requires start <= i < end
    ensures var d := Dom(TopSpacer(hs, start), AllRows(hs, start, end), bottom);
            LiveNodeIndex(start, i) == RowChild(d, i - start) <==> start == 0
  {
  }

  /** Off screen, the layout is right exactly when there was a bottom spacer to follow the list, or nothing was
      appended below the window. */
  lemma OffscreenLayout(hs: Heights, start: nat, end: nat, total: nat, bottom: Option<int>)
    requires start < end <= total
    requires bottom.Some? ==> bottom.value == Max(0, Prefix(hs, total) - Prefix(hs, end) - GAP)
    requires bottom.Some? ==> end < total
    ensures Faithful(hs, total, start, Dom(TopSpacer(hs, start), AllRows(hs, start, end), bottom)) <==>
              bottom.Some? || total == end
  {
    var d := Dom(TopSpacer(hs, start), AllRows(hs, start, end), bottom);
    WindowHeight(hs, start, end, bottom);
    FullHeight(hs, total);
    PrefixGrows(hs, end, total);
    forall k | 0 <= k < |d.rows| ensures TopOf(Children(d), RowChild(d, k)) == Prefix(hs, start + k) {
      RowsInPlace(hs, start, end, bottom, k);
    }
  }
}

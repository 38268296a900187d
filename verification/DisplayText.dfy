/**
 Display-text hardening (apps/vscode/src/displayText.ts, the clamp of apps/vscode/src/cockpit.ts): UTF-16 text
 stripped of invisible controls and cut without splitting a surrogate pair.
 */
module DisplayText {

  type Unit = u: int | 0 <= u < 0x1_0000

  const ELLIPSIS: Unit := 0x2026

  predicate High(u: Unit) { 0xD800 <= u <= 0xDBFF }
  predicate Low(u: Unit) { 0xDC00 <= u <= 0xDFFF }

  /** Well-formed UTF-16: every surrogate is part of a high-low pair. */
  predicate WellFormed(s: seq<Unit>)
    decreases |s|
  {
    if s == [] then true
    else if High(s[0]) then |s| > 1 && Low(s[1]) && WellFormed(s[2..])
    else !Low(s[0]) && WellFormed(s[1..])
  }

  /** The scan decides exactly ill-formedness. */
  method HasLoneSurrogate(s: seq<Unit>) returns (lone: bool)
    ensures lone <==> !WellFormed(s)
  {
    var i := 0;
    assert s[0..] == s;
    while i < |s|
      invariant 0 <= i <= |s|
      invariant WellFormed(s) <==> WellFormed(s[i..])
    {
      var rest := s[i..];
      if High(s[i]) {
        if !(i + 1 < |s| && Low(s[i + 1])) {
          return true;
        }
        assert rest[2..] == s[i + 2..];
        i := i + 2;
      } else if Low(s[i]) {
        return true;
      } else {
        assert rest[1..] == s[i + 1..];
        i := i + 1;
      }
    }
    return false;
  }

  /** Bidi embedding and override controls, and C0/C1 controls other than tab, newline and carriage return. */
  predicate Invisible(u: Unit)
  {
    || u == 0x200E || u == 0x200F || 0x202A <= u <= 0x202E || 0x2066 <= u <= 0x2069
    || u <= 0x08 || u == 0x0B || u == 0x0C || 0x0E <= u <= 0x1F || 0x7F <= u <= 0x9F
  }

  function Strip(s: seq<Unit>): (t: seq<Unit>)
    ensures |t| <= |s|
    ensures forall i :: 0 <= i < |t| ==> !Invisible(t[i])
  {
    if s == [] then [] else if Invisible(s[0]) then Strip(s[1..]) else [s[0]] + Strip(s[1..])
  }

  function SafeSlice(s: seq<Unit>, max: int): (t: seq<Unit>)
    ensures t <= s && (max >= 0 ==> |t| <= max)
  {
    if max <= 0 then []
    else if |s| <= max then s
    else if High(s[max - 1]) && Low(s[max]) then s[..max - 1]
    else s[..max]
  }

  function Clamp(s: seq<Unit>, max: int): (t: seq<Unit>)
  {
    var clean := Strip(s);
    if |clean| > max then SafeSlice(clean, max) + [ELLIPSIS] else clean
  }

  // ------------------------------------------------------------------ proofs

  lemma {:induction false} StripKeepsWellFormed(s: seq<Unit>)
    requires WellFormed(s)
    ensures WellFormed(Strip(s))
    decreases |s|
  {
    if s != [] {
      if High(s[0]) {
        StripKeepsWellFormed(s[2..]);
        assert s[1..][1..] == s[2..];
        assert Strip(s) == [s[0]] + ([s[1]] + Strip(s[2..]));
        assert Strip(s)[2..] == Strip(s[2..]);
      } else {
        StripKeepsWellFormed(s[1..]);
        if !Invisible(s[0]) {
          assert Strip(s)[1..] == Strip(s[1..]);
        }
      }
    }
  }

  lemma {:induction false} StripNothing(s: seq<Unit>)
    requires forall i :: 0 <= i < |s| ==> !Invisible(s[i])
    ensures Strip(s) == s
  {
    if s != [] {
      StripNothing(s[1..]);
    }
  }

  /** A prefix that does not end inside a pair is well-formed. */
  lemma {:induction false} PrefixWellFormed(s: seq<Unit>, n: nat)
    requires WellFormed(s) && n <= |s|
    requires 0 < n < |s| ==> !(High(s[n - 1]) && Low(s[n]))
    ensures WellFormed(s[..n])
    decreases n
  {
    if n > 0 {
      var p := s[..n];
      if High(s[0]) {
        if n > 1 {
          PrefixWellFormed(s[2..], n - 2);
          assert p[2..] == s[2..][..n - 2];
        }
      } else {
        PrefixWellFormed(s[1..], n - 1);
        assert p[1..] == s[1..][..n - 1];
      }
    }
  }

  lemma {:induction false} AppendWellFormed(s: seq<Unit>, u: Unit)
    requires WellFormed(s) && !High(u) && !Low(u)
    ensures WellFormed(s + [u])
    decreases |s|
  {
    if s == [] {
      assert s + [u] == [u];
    } else if High(s[0]) {
      AppendWellFormed(s[2..], u);
      assert (s + [u])[2..] == s[2..] + [u];
    } else {
      AppendWellFormed(s[1..], u);
      assert (s + [u])[1..] == s[1..] + [u];
    }
  }

  /** A well-formed text never has a high surrogate right before the end of a cut pair's first half. */
  lemma {:induction false} NoHighBeforePair(s: seq<Unit>, n: nat)
    requires WellFormed(s) && n + 1 < |s| && High(s[n])
    ensures Low(s[n + 1])
    decreases n
  {
    if n > 0 {
      if High(s[0]) {
        if n > 1 {
          NoHighBeforePair(s[2..], n - 2);
        }
      } else {
        NoHighBeforePair(s[1..], n - 1);
      }
    }
  }

  lemma SafeSliceWellFormed(s: seq<Unit>, max: int)
    requires WellFormed(s)
    ensures WellFormed(SafeSlice(s, max))
  {
    if 0 < max < |s| {
      if High(s[max - 1]) && Low(s[max]) {
        if max >= 2 && High(s[max - 2]) {
          NoHighBeforePair(s, max - 2);
        }
        PrefixWellFormed(s, max - 1);
      } else {
        PrefixWellFormed(s, max);
      }
    }
  }

  /** A cut takes as much as fits: the bound, or one unit less to keep a pair whole. */
  lemma SafeSliceTakesAll(s: seq<Unit>, max: int)
    ensures var n := if max < 0 then 0 else if max < |s| then max else |s|;
            |SafeSlice(s, max)| == if 0 < max < |s| && High(s[max - 1]) && Low(s[max]) then n - 1 else n
  {
  }

  /** Well-formed text, unit by unit: a high surrogate is followed by a low one and a low one follows a high one. */
  ghost predicate Paired(s: seq<Unit>)
  {
    && (forall i :: 0 <= i < |s| && High(s[i]) ==> i + 1 < |s| && Low(s[i + 1]))
    && (forall i :: 0 <= i < |s| && Low(s[i]) ==> 0 < i && High(s[i - 1]))
  }

  lemma {:induction false} WellFormedIff(s: seq<Unit>)
    ensures WellFormed(s) <==> Paired(s)
    decreases |s|
  {
    if s != [] {
      var n := if High(s[0]) then 2 else 1;
      if n <= |s| {
        var rest := s[n..];
        WellFormedIff(rest);
        assert forall i :: 0 <= i < |rest| ==> rest[i] == s[i + n];
        assert forall i :: n <= i < |s| ==> s[i] == rest[i - n];
      }
    }
  }

  /** Stripping takes each unit by itself: it drops the invisible ones and keeps the others in order. */
  lemma {:induction false} StripIsUnitwise(a: seq<Unit>, b: seq<Unit>, u: Unit)
    ensures Strip(a + b) == Strip(a) + Strip(b)
    ensures Strip([u]) == if Invisible(u) then [] else [u]
    decreases |a|
  {
    assert [u][1..] == [];
    if a == [] {
      assert a + b == b;
    } else {
      assert (a + b)[1..] == a[1..] + b;
      StripIsUnitwise(a[1..], b, u);
    }
  }

  /** Tabs, line ends and everything printable stay, and nothing else. */
  lemma WhatStays(u: Unit)
    ensures !Invisible(u) <==>
              || u == 0x09 || u == 0x0A || u == 0x0D || 0x20 <= u <= 0x7E || 0xA0 <= u <= 0x200D
              || 0x2010 <= u <= 0x2029 || 0x202F <= u <= 0x2065 || 0x206A <= u
  {
  }

  /** A clamp leaves stripped text that fits as it is, and cuts the rest as far out as it can, with an ellipsis. */
  lemma ClampIs(s: seq<Unit>, max: nat)
    ensures var clean, out := Strip(s), Clamp(s, max);
            if |clean| <= max then out == clean
            else
              && out != [] && out[|out| - 1] == ELLIPSIS
              && out[..|out| - 1] <= clean && max <= |out| <= max + 1
              && (|out| == max ==> max > 0 && High(clean[max - 1]) && Low(clean[max]))
  {
    SafeSliceTakesAll(Strip(s), max);
  }

  /** MAIN: clamping keeps well-formed text well-formed, also when the cut falls inside a pair, and stays within
      one unit of the bound. */
  lemma ClampWellFormed(s: seq<Unit>, max: nat)
    ensures |Clamp(s, max)| <= max + 1
    ensures WellFormed(s) ==> WellFormed(Clamp(s, max))
  {
    hide WellFormed;
    var clean := Strip(s);
    if WellFormed(s) {
      StripKeepsWellFormed(s);
      if |clean| > max {
        SafeSliceWellFormed(clean, max);
        AppendWellFormed(SafeSlice(clean, max), ELLIPSIS);
      }
    }
  }

  /** MAIN: clamping twice is clamping once. */
  lemma ClampIdempotent(s: seq<Unit>, max: nat)
    ensures Clamp(Clamp(s, max), max) == Clamp(s, max)
  {
    var clean, out := Strip(s), Clamp(s, max);
    assert forall i :: 0 <= i < |out| ==> !Invisible(out[i]);
    StripNothing(out);
    if |clean| > max && |out| > max && max > 0 {
      assert out[..max] == SafeSlice(clean, max);
    }
  }
}

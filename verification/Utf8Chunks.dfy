/**
 Cutting transcript text into bounded chunks at character boundaries (crates/acp/src/sync_bridge.rs), over
 well-formed UTF-8 as section 3 of RFC 3629 defines it.
 */
module Utf8Chunks {
  import opened Text

  const CHUNK_BYTES := 16 * 1024

  predicate Continuation(b: Byte) { 0x80 <= b <= 0xBF }

  predicate Tail(s: seq<Byte>, from: nat, to: nat)
  {
    to <= |s| && forall k :: from <= k < to ==> Continuation(s[k])
  }

  /** Length of the well-formed character at the front of `s`, or 0. */
  function Width(s: seq<Byte>): (w: nat)
    ensures w <= |s| && w <= 4
    ensures w > 0 ==> !Continuation(s[0]) && Tail(s, 1, w)
  {
    if s == [] then 0
    else if s[0] < 0x80 then 1
    else if 0xC2 <= s[0] <= 0xDF && Tail(s, 1, 2) then 2
    else if 0xE0 <= s[0] <= 0xEF && Tail(s, 1, 3)
            && (s[0] == 0xE0 ==> s[1] >= 0xA0) && (s[0] == 0xED ==> s[1] <= 0x9F) then 3
    else if 0xF0 <= s[0] <= 0xF4 && Tail(s, 1, 4)
            && (s[0] == 0xF0 ==> s[1] >= 0x90) && (s[0] == 0xF4 ==> s[1] <= 0x8F) then 4
    else 0
  }

  predicate Valid(s: seq<Byte>)
    decreases |s|
  {
    s == [] || (Width(s) > 0 && Valid(s[Width(s)..]))
  }

  /** `is_char_boundary`. */
  predicate Boundary(s: seq<Byte>, i: nat)
  {
    i == 0 || i == |s| || (i < |s| && !Continuation(s[i]))
  }

  lemma WidthOfPrefix(s: seq<Byte>, n: nat)
    requires Width(s) <= n <= |s|
    ensures Width(s) > 0 ==> Width(s[..n]) == Width(s)
  {
    var p := s[..n];
    assert forall k :: 0 <= k < n ==> p[k] == s[k];
  }

  /** Well-formed text cut at a boundary is two well-formed texts. */
  lemma {:induction false} CutAtBoundary(s: seq<Byte>, i: nat)
    requires Valid(s) && i <= |s| && Boundary(s, i)
    ensures Valid(s[..i]) && Valid(s[i..])
    decreases |s|
  {
    if i == 0 {
      assert s[i..] == s && s[..i] == [];
    } else {
      var w := Width(s);
      assert i >= w by {
        assert Tail(s, 1, w);
      }
      var rest := s[w..];
      assert i < |s| ==> rest[i - w] == s[i];
      CutAtBoundary(rest, i - w);
      WidthOfPrefix(s, i);
      assert s[..i][w..] == rest[..i - w] && s[i..] == rest[i - w..];
    }
  }

  /** A boundary is never more than three bytes back. */
  lemma {:induction false} BoundaryNear(s: seq<Byte>, i: nat) returns (j: nat)
    requires Valid(s) && i <= |s|
    ensures j <= i <= j + 3 && Boundary(s, j)
    decreases |s|
  {
    if i == 0 {
      j := 0;
    } else {
      var w := Width(s);
      if i < w {
        j := 0;
      } else {
        var k := BoundaryNear(s[w..], i - w);
        j := k + w;
        assert j < |s| ==> s[w..][k] == s[j];
        if k == 0 && w < |s| {
          assert Width(s[w..]) > 0;
        }
      }
    }
  }

  ghost predicate GoodChunk(c: seq<Byte>) { c != [] && |c| <= CHUNK_BYTES && Valid(c) }

  /** The inner loop: step back from the byte bound to a boundary. */
  method ChunkEnd(text: seq<Byte>, start: nat) returns (end: nat)
    requires start < |text| && Boundary(text, start) && Valid(text[start..])
    ensures start < end <= |text| && end - start <= CHUNK_BYTES
    ensures Valid(text[start..end]) && Valid(text[end..]) && Boundary(text, end)
    ensures forall i :: end < i <= |text| && i - start <= CHUNK_BYTES ==> !Boundary(text, i)
    ensures end < |text| ==> end - start >= CHUNK_BYTES - 3
  {
    hide Valid, Width;
    end := if start + CHUNK_BYTES <= |text| then start + CHUNK_BYTES else |text|;
    ghost var rest := text[start..];
    ghost var j := end - start;
    if end < |text| {
      j := BoundaryNear(rest, end - start);
      assert Boundary(text, start + j) by { assert rest[j] == text[start + j]; }
    }
    while end > start && !Boundary(text, end)
      invariant start < start + j <= end <= |text| && end - start <= CHUNK_BYTES
      invariant Boundary(text, start + j)
      invariant forall i :: end < i <= |text| && i - start <= CHUNK_BYTES ==> !Boundary(text, i)
    {
      end := end - 1;
    }
    assert Boundary(rest, end - start) by { assert end < |text| ==> rest[end - start] == text[end]; }
    CutAtBoundary(rest, end - start);
    assert rest[..end - start] == text[start..end] && rest[end - start..] == text[end..];
  }

  /** MAIN: the loop always advances; every chunk is non-empty, well-formed and within the bound, and full but for the
      three bytes a character may need, unless it ends the text; the chunks spell the text, or a prefix of it if the
      receiver stops accepting. */
  method EmitChunks(text: seq<Byte>, accepts: nat -> bool) returns (chunks: seq<seq<Byte>>)
    requires Valid(text)
    ensures forall k :: 0 <= k < |chunks| ==> GoodChunk(chunks[k])
    ensures Concat(chunks) <= text
    ensures Concat(chunks) != text ==> !accepts(|chunks|)
    ensures (forall k :: 0 <= k < |chunks| ==> accepts(k))
    ensures forall k :: 0 <= k < |chunks| && |chunks[k]| < CHUNK_BYTES - 3 ==>
              k == |chunks| - 1 && Concat(chunks) == text
  {
    hide Valid, Width;
    chunks := [];
    var start := 0;
    assert text[start..] == text;
    while start < |text|
      invariant 0 <= start <= |text| && Boundary(text, start) && Valid(text[start..])
      invariant Concat(chunks) == text[..start]
      invariant forall k :: 0 <= k < |chunks| ==> GoodChunk(chunks[k]) && accepts(k)
      invariant forall k :: 0 <= k < |chunks| && |chunks[k]| < CHUNK_BYTES - 3 ==> k == |chunks| - 1 && start == |text|
      decreases |text| - start
    {
      var end := ChunkEnd(text, start);
      var chunk := text[start..end];
      if !accepts(|chunks|) {
        return;
      }
      assert (chunks + [chunk])[..|chunks|] == chunks;
      assert text[..end] == text[..start] + chunk;
      chunks := chunks + [chunk];
      start := end;
    }
    assert text[..start] == text;
  }

  // --------------------------------------------------------------- byte lengths

  /** The bytes of one scalar value, by its range (section 3 of RFC 3629). */
  function Utf8(c: char): (bytes: seq<Byte>)
  {
    var n := c as int;
    if n < 0x80 then [n]
    else if n < 0x800 then [0xC0 + n / 64, 0x80 + n % 64]
    else if n < 0x1_0000 then [0xE0 + n / 4096, 0x80 + n / 64 % 64, 0x80 + n % 64]
    else [0xF0 + n / 0x4_0000, 0x80 + n / 4096 % 64, 0x80 + n / 64 % 64, 0x80 + n % 64]
  }

  function Utf8Text(s: string): (bytes: seq<Byte>)
  {
    if s == "" then [] else Utf8(s[0]) + Utf8Text(s[1..])
  }

  /** The bytes after the first are continuations, and those of the third and fourth range avoid what is excluded. */
  lemma ThreeBytes(n: int)
    requires 0x800 <= n < 0xD800 || 0xE000 <= n < 0x1_0000
    ensures 0xE0 <= 0xE0 + n / 4096 <= 0xEF
    ensures n / 4096 == 0 ==> n / 64 % 64 >= 0x20
    ensures n / 4096 == 0xD ==> n / 64 % 64 <= 0x1F
  {
  }

  lemma FourBytes(n: int)
    requires 0x1_0000 <= n < 0x11_0000
    ensures 0xF0 <= 0xF0 + n / 0x4_0000 <= 0xF4
    ensures n / 0x4_0000 == 0 ==> n / 4096 % 64 >= 0x10
    ensures n / 0x4_0000 == 4 ==> n / 4096 % 64 <= 0xF
  {
  }

  /** One scalar value is one well-formed character, as many bytes long as it counts. */
  lemma OneCharacter(c: char, rest: seq<Byte>)
    ensures |Utf8(c)| == CharBytes(c) && Width(Utf8(c) + rest) == CharBytes(c)
  {
    var n, s := c as int, Utf8(c) + rest;
    assert forall k :: 0 <= k < |Utf8(c)| ==> s[k] == Utf8(c)[k];
    if 0x800 <= n < 0x1_0000 {
      ThreeBytes(n);
    } else if 0x1_0000 <= n {
      FourBytes(n);
    }
  }

  /** MAIN: the byte length the client counts is the length of the text's well-formed UTF-8. */
  lemma {:induction false} ByteLenIsUtf8(s: string)
    ensures |Utf8Text(s)| == ByteLen(s) && Valid(Utf8Text(s))
  {
    hide Width, Utf8, CharBytes;
    if s != "" {
      ByteLenIsUtf8(s[1..]);
      OneCharacter(s[0], Utf8Text(s[1..]));
      assert Utf8Text(s)[CharBytes(s[0])..] == Utf8Text(s[1..]);
      assert s == [s[0]] + s[1..];
      ByteLenConcat([s[0]], s[1..]);
      assert ByteLen([s[0]]) == CharBytes(s[0]) by { assert [s[0]][..0] == ""; }
    }
  }
}

/**
 Text as the extension's client code sees it: sequences of Unicode scalar values together
 with their UTF-8 size, and the line structure of a growing text.
 */
module Text {

  datatype Option<+T> = None | Some(value: T)

  type Byte = b: int | 0 <= b < 256

  function Max(a: int, b: int): (m: int) { if a >= b then a else b }
  function Min(a: int, b: int): (m: int) { if a <= b then a else b }

  /** Chunks put together again. */
  function Concat<T>(chunks: seq<seq<T>>): (s: seq<T>)
  {
    if chunks == [] then [] else Concat(chunks[..|chunks| - 1]) + chunks[|chunks| - 1]
  }

  /** UTF-8 size of one scalar value. */
  function CharBytes(c: char): (n: nat)
    ensures 1 <= n <= 4
  {
    if c as int < 0x80 then 1
    else if c as int < 0x800 then 2
    else if c as int < 0x1_0000 then 3
    else 4
  }

  /** UTF-8 size of a text. */
  function ByteLen(s: string): (n: nat)
  {
    if s == "" then 0 else ByteLen(s[..|s| - 1]) + CharBytes(s[|s| - 1])
  }

  lemma {:induction false} ByteLenConcat(a: string, b: string)
    ensures ByteLen(a + b) == ByteLen(a) + ByteLen(b)
  {
    if b == "" {
      assert a + b == a;
    } else {
      var b' := b[..|b| - 1];
      assert (a + b)[..|a + b| - 1] == a + b';
      ByteLenConcat(a, b');
    }
  }

  lemma {:induction false} AsciiBytes(s: string)
    requires forall i :: 0 <= i < |s| ==> s[i] as int < 0x80
    ensures ByteLen(s) == |s|
  {
    if s != "" {
      AsciiBytes(s[..|s| - 1]);
    }
  }

  /** Equal byte offsets of one text are equal positions: every scalar value has a positive size. */
  lemma {:induction false} ByteOffsetsAreInjective(s: string, i: nat, j: nat)
    requires i <= |s| && j <= |s|
    ensures i < j ==> ByteLen(s[..i]) < ByteLen(s[..j])
    ensures ByteLen(s[..i]) == ByteLen(s[..j]) ==> i == j
  {
    if i < j {
      assert s[..j] == s[..i] + s[i..j];
      ByteLenConcat(s[..i], s[i..j]);
    } else if j < i {
      assert s[..i] == s[..j] + s[j..i];
      ByteLenConcat(s[..j], s[j..i]);
    }
  }

  /** The newline-terminated lines of a text, without their newlines. */
  function Lines(text: string): (ls: seq<string>)
  {
    if text == "" then []
    else if text[|text| - 1] == '\n' then Lines(text[..|text| - 1]) + [Rest(text[..|text| - 1])]
    else Lines(text[..|text| - 1])
  }

  /** What follows the last newline of a text. */
  function Rest(text: string): (r: string)
    ensures '\n' !in r
  {
    if text == "" then ""
    else if text[|text| - 1] == '\n' then ""
    else Rest(text[..|text| - 1]) + [text[|text| - 1]]
  }

  lemma {:induction false} NoNewline(text: string)
    requires '\n' !in text
    ensures Lines(text) == [] && Rest(text) == text
  {
    if text != "" {
      NoNewline(text[..|text| - 1]);
    }
  }

  /** Reading a text in two pieces: only the unfinished line of the first piece is carried over. */
  lemma {:induction false} LinesConcat(a: string, b: string)
    ensures Lines(a + b) == Lines(a) + Lines(Rest(a) + b)
    ensures Rest(a + b) == Rest(Rest(a) + b)
  {
    if b == "" {
      assert a + b == a && Rest(a) + b == Rest(a);
      NoNewline(Rest(a));
    } else {
      var b' := b[..|b| - 1];
      assert (a + b)[..|a + b| - 1] == a + b';
      assert (Rest(a) + b)[..|Rest(a) + b| - 1] == Rest(a) + b';
      LinesConcat(a, b');
    }
  }

  /** The first line of a text that starts with `line` and a newline. */
  lemma LinesFirst(line: string, more: string)
    requires '\n' !in line
    ensures Lines(line + ['\n'] + more) == [line] + Lines(more)
    ensures Rest(line + ['\n'] + more) == Rest(more)
  {
    var head := line + ['\n'];
    NoNewline(line);
    assert head[..|head| - 1] == line;
    assert Lines(head) == [line] && Rest(head) == "";
    LinesConcat(head, more);
    assert Rest(head) + more == more;
  }

  /** Lines joined by newlines. */
  function Join(lines: seq<string>): (s: string)
  {
    if lines == [] then "" else if |lines| == 1 then lines[0] else lines[0] + "\n" + Join(lines[1..])
  }

  predicate StartsWith(s: string, p: string)
  {
    |p| <= |s| && s[..|p|] == p
  }

  ghost predicate FirstAt(s: string, c: char, i: int)
  {
    0 <= i < |s| && s[i] == c && c !in s[..i]
  }

  /** The least index of `c` in `s`, or -1. */
  ghost function IndexOf(s: string, c: char): (i: int)
    ensures i == -1 <==> c !in s
    ensures i != -1 ==> FirstAt(s, c, i)
  {
    if c !in s then -1 else FirstExists(s, c); var i :| FirstAt(s, c, i); i
  }

  lemma {:induction false} FirstExists(s: string, c: char)
    requires c in s
    ensures exists i :: FirstAt(s, c, i)
  {
    var s' := s[..|s| - 1];
    if c in s' {
      FirstExists(s', c);
      var i :| FirstAt(s', c, i);
      assert s[..i] == s'[..i];
      assert FirstAt(s, c, i);
    } else {
      assert FirstAt(s, c, |s| - 1);
    }
  }

  method FindIndex(s: string, c: char) returns (i: int)
    ensures i == IndexOf(s, c)
  {
    i := 0;
    while i < |s| && s[i] != c
      invariant 0 <= i <= |s|
      invariant c !in s[..i]
    {
      i := i + 1;
    }
    if i == |s| {
      assert s[..i] == s;
      i := -1;
    } else {
      FirstIsUnique(s, c, i, IndexOf(s, c));
    }
  }

  lemma FirstIsUnique(s: string, c: char, i: int, j: int)
    requires FirstAt(s, c, i) && FirstAt(s, c, j)
    ensures i == j
  {
  }
}

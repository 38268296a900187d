/**
 Base64 on both sides of the wire: the attachment encoder (apps/vscode/media/chat.js) and the strict evidence
 decoder (apps/vscode/src/changeReview.ts), against the 24-bit groups of section 4 of RFC 4648.
 Shifts and masks of non-negative bytes are written as division and remainder.
 */
module Base64 {
  import opened Text

  /** The alphabet, by value. */
  function Digit(n: int): (c: char)
    requires 0 <= n < 64
    ensures InAlphabet(c) && ValueOf(c) == n
  {
    if n < 26 then 'A' + n as char
    else if n < 52 then 'a' + (n - 26) as char
    else if n < 62 then '0' + (n - 52) as char
    else if n == 62 then '+' else '/'
  }

  predicate InAlphabet(c: char)
  {
    'A' <= c <= 'Z' || 'a' <= c <= 'z' || '0' <= c <= '9' || c == '+' || c == '/'
  }

  function ValueOf(c: char): (n: int)
    requires InAlphabet(c)
    ensures 0 <= n < 64
  {
    if 'A' <= c <= 'Z' then c as int - 'A' as int
    else if 'a' <= c <= 'z' then c as int - 'a' as int + 26
    else if '0' <= c <= '9' then c as int - '0' as int + 52
    else if c == '+' then 62 else 63
  }

  // ---------------------------------------------------------------- reference

  /** Four digits of one 24-bit group. */
  function Group(v: int): (s: string)
    requires 0 <= v < 0x100_0000
    ensures |s| == 4
  {
    [Digit(v / 0x4_0000), Digit(v / 0x1000 % 64), Digit(v / 64 % 64), Digit(v % 64)]
  }

  /** Three bytes as one 24-bit number. */
  function Bits24(b0: int, b1: int, b2: int): (v: int)
    requires 0 <= b0 < 256 && 0 <= b1 < 256 && 0 <= b2 < 256
    ensures 0 <= v < 0x100_0000
  {
    b0 * 0x1_0000 + b1 * 0x100 + b2
  }

  /** Section 4: groups of three bytes, the last one zero-filled and its unused digits padded. */
  function Encode(bytes: seq<Byte>): (s: string)
  {
    if bytes == [] then ""
    else if |bytes| == 1 then Group(Bits24(bytes[0], 0, 0))[..2] + "=="
    else if |bytes| == 2 then Group(Bits24(bytes[0], bytes[1], 0))[..3] + "="
    else Group(Bits24(bytes[0], bytes[1], bytes[2])) + Encode(bytes[3..])
  }

  // ------------------------------------------------------------- the encoder

  /** The four characters `base64FromBytes` appends for the bytes at `i`; -1 stands for a missing byte. */
  function Quad(b0: Byte, b1: int, b2: int): (s: string)
    requires -1 <= b1 < 256 && -1 <= b2 < 256
    ensures |s| == 4
  {
    [Digit(b0 / 4),
     Digit(b0 % 4 * 16 + (if b1 >= 0 then b1 / 16 else 0)),
     if b1 >= 0 then Digit(b1 % 16 * 4 + (if b2 >= 0 then b2 / 64 else 0)) else '=',
     if b2 >= 0 then Digit(b2 % 64) else '=']
  }

  lemma QuadIsGroup(b0: Byte, b1: Byte, b2: Byte)
    ensures Quad(b0, b1, b2) == Group(Bits24(b0, b1, b2))
  {
    hide Digit, Bits24;
    Split24(b0, b1, b2);
  }

  lemma PairIsGroup(b0: Byte, b1: Byte)
    ensures Quad(b0, b1, -1) == Group(Bits24(b0, b1, 0))[..3] + "="
  {
    hide Digit, Bits24;
    Split24(b0, b1, 0);
  }

  lemma SingleIsGroup(b0: Byte)
    ensures Quad(b0, -1, -1) == Group(Bits24(b0, 0, 0))[..2] + "=="
  {
    hide Digit, Bits24;
    Split24(b0, 0, 0);
  }

  lemma Split24(b0: Byte, b1: Byte, b2: Byte)
    ensures var v := Bits24(b0, b1, b2);
            && v / 0x4_0000 == b0 / 4
            && v / 0x1000 % 64 == b0 % 4 * 16 + b1 / 16
            && v / 64 % 64 == b1 % 16 * 4 + b2 / 64
            && v % 64 == b2 % 64
  {
    var v := Bits24(b0, b1, b2);
    var a, x, y, z := b0 / 4, b0 % 4 * 16 + b1 / 16, b1 % 16 * 4 + b2 / 64, b2 % 64;
    assert v == a * 0x4_0000 + x * 0x1000 + y * 64 + z by { Regroup(b0, b1, b2); }
    Quotients(a, x, y, z);
  }

  lemma Regroup(b0: Byte, b1: Byte, b2: Byte)
    ensures Bits24(b0, b1, b2) ==
            b0 / 4 * 0x4_0000 + (b0 % 4 * 16 + b1 / 16) * 0x1000 + (b1 % 16 * 4 + b2 / 64) * 64 + b2 % 64
  {
    assert b0 == b0 / 4 * 4 + b0 % 4;
    assert b1 == b1 / 16 * 16 + b1 % 16;
    assert b2 == b2 / 64 * 64 + b2 % 64;
  }

  lemma Quotients(a: int, x: int, y: int, z: int)
    requires 0 <= a < 64 && 0 <= x < 64 && 0 <= y < 64 && 0 <= z < 64
    ensures var v := a * 0x4_0000 + x * 0x1000 + y * 64 + z;
            v / 0x4_0000 == a && v / 0x1000 % 64 == x && v / 64 % 64 == y && v % 64 == z
  {
    var v := a * 0x4_0000 + x * 0x1000 + y * 64 + z;
    assert v / 0x1000 == a * 64 + x;
    assert v / 64 == (a * 64 + x) * 64 + y;
  }

  /** MAIN: the encoder's loop produces the RFC encoding. */
  method Base64FromBytes(bytes: seq<Byte>) returns (out: string)
    ensures out == Encode(bytes)
  {
    hide Encode, Quad, Remaining;
    out := "";
    var i := 0;
    AllRemains(bytes);
    assert "" + Remaining(bytes, 0) == Remaining(bytes, 0);
    while i < |bytes|
      invariant 0 <= i
      invariant out + Remaining(bytes, i) == Encode(bytes)
      decreases |bytes| - i
    {
      var b0 := bytes[i];
      var b1 := if i + 1 < |bytes| then bytes[i + 1] else -1;
      var b2 := if i + 2 < |bytes| then bytes[i + 2] else -1;
      var quad := Quad(b0, b1, b2);
      RemainingStep(bytes, i);
      Regrouped(out, quad, Remaining(bytes, i + 3));
      out := out + quad;
      i := i + 3;
    }
    assert Remaining(bytes, i) == "" by { NothingRemains(bytes, i); }
    assert out + "" == out;
  }

  /** The encoding of what is left at `i`. */
  function Remaining(bytes: seq<Byte>, i: nat): (s: string)
  {
    if i <= |bytes| then Encode(bytes[i..]) else ""
  }

  lemma AllRemains(bytes: seq<Byte>)
    ensures Remaining(bytes, 0) == Encode(bytes)
  {
    assert bytes[0..] == bytes;
  }

  lemma Regrouped(a: string, b: string, c: string)
    ensures a + (b + c) == (a + b) + c
  {
  }

  lemma RemainingStep(bytes: seq<Byte>, i: nat)
    requires i < |bytes|
    ensures Remaining(bytes, i) ==
            Quad(bytes[i], if i + 1 < |bytes| then bytes[i + 1] else -1, if i + 2 < |bytes| then bytes[i + 2] else -1)
            + Remaining(bytes, i + 3)
  {
    hide Encode, Quad;
    EncodeStep(bytes, i);
  }

  lemma NothingRemains(bytes: seq<Byte>, i: nat)
    requires i >= |bytes|
    ensures Remaining(bytes, i) == ""
  {
  }

  lemma EncodeStep(bytes: seq<Byte>, i: nat)
    requires i < |bytes|
    ensures Encode(bytes[i..]) ==
            Quad(bytes[i], if i + 1 < |bytes| then bytes[i + 1] else -1, if i + 2 < |bytes| then bytes[i + 2] else -1)
            + Remaining(bytes, i + 3)
  {
    hide Group, Quad, Bits24;
    var rest := bytes[i..];
    if |rest| > 2 {
      QuadIsGroup(rest[0], rest[1], rest[2]);
      assert rest[3..] == bytes[i + 3..];
    } else if |rest| > 1 {
      PairIsGroup(rest[0], rest[1]);
    } else {
      SingleIsGroup(rest[0]);
    }
  }

  // ------------------------------------------------------------- the decoder

  /** The strict check: a whole number of groups, alphabet characters, then at most two pads. */
  predicate Strict(s: string)
  {
    && |s| % 4 == 0
    && exists pads: nat :: pads <= 2 && PaddedBy(s, pads)
  }

  predicate PaddedBy(s: string, pads: nat)
  {
    && pads <= |s|
    && (forall i :: 0 <= i < |s| - pads ==> InAlphabet(s[i]))
    && (forall i :: |s| - pads <= i < |s| ==> s[i] == '=')
  }

  /** The bytes of strictly formed text. */
  function Decode(s: string): (bytes: seq<Byte>)
    requires Strict(s)
    decreases |s|
  {
    if s == "" then []
    else
      var x, y := ValueOf(s[0]), ValueOf(s[1]);
      if s[3] == '=' then
        if s[2] == '=' then [x * 4 + y / 16]
        else [x * 4 + y / 16, y % 16 * 16 + ValueOf(s[2]) / 4]
      else
        var z, w := ValueOf(s[2]), ValueOf(s[3]);
        StrictRest(s);
        [x * 4 + y / 16, y % 16 * 16 + z / 4, z % 4 * 64 + w] + Decode(s[4..])
  }

  lemma StrictRest(s: string)
    requires Strict(s) && s != "" && s[3] != '='
    ensures Strict(s[4..])
  {
    var pads: nat :| pads <= 2 && PaddedBy(s, pads);
    assert PaddedBy(s[4..], pads);
  }

  lemma StrictCons(s: string, rest: string)
    requires |s| == 4 && (forall i :: 0 <= i < 4 ==> InAlphabet(s[i])) && Strict(rest)
    ensures Strict(s + rest)
  {
    var pads: nat :| pads <= 2 && PaddedBy(rest, pads);
    assert PaddedBy(s + rest, pads);
  }

  /** Encoding starts with a quad; the rest encodes the rest. */
  lemma EncodeIsQuads(bytes: seq<Byte>)
    requires bytes != []
    ensures Encode(bytes) ==
            Quad(bytes[0], if 1 < |bytes| then bytes[1] else -1, if 2 < |bytes| then bytes[2] else -1)
            + (if 3 <= |bytes| then Encode(bytes[3..]) else "")
  {
    hide Quad, Encode;
    assert bytes[0..] == bytes;
    EncodeStep(bytes, 0);
  }

  lemma LastQuadDecodes(b0: Byte, b1: int)
    requires -1 <= b1 < 256
    ensures var s := Quad(b0, b1, -1);
            Strict(s) && Decode(s) == if b1 >= 0 then [b0, b1] else [b0]
  {
    hide Digit;
    var s := Quad(b0, b1, -1);
    assert PaddedBy(s, if b1 >= 0 then 1 else 2);
  }

  lemma QuadDecodes(b0: Byte, b1: Byte, b2: Byte, rest: string)
    requires Strict(rest)
    ensures var s := Quad(b0, b1, b2) + rest;
            Strict(s) && Decode(s) == [b0, b1, b2] + Decode(rest)
  {
    hide Digit;
    var q := Quad(b0, b1, b2);
    var s := q + rest;
    StrictCons(q, rest);
    assert s[4..] == rest;
    assert s[0] == q[0] && s[1] == q[1] && s[2] == q[2] && s[3] == q[3] && s[3] != '=';
    var x, y, z, w := b0 / 4, b0 % 4 * 16 + b1 / 16, b1 % 16 * 4 + b2 / 64, b2 % 64;
    assert ValueOf(s[0]) == x && ValueOf(s[1]) == y && ValueOf(s[2]) == z && ValueOf(s[3]) == w;
    assert x * 4 + y / 16 == b0 && y % 16 * 16 + z / 4 == b1 && z % 4 * 64 + w == b2;
  }

  /** MAIN: every encoding passes the strict check, and decoding it gives the bytes back. */
  lemma {:induction false} RoundTrip(bytes: seq<Byte>)
    ensures Strict(Encode(bytes)) && Decode(Encode(bytes)) == bytes
    decreases |bytes|
  {
    hide Encode, Quad, Decode, Strict;
    if bytes == [] {
      EmptyRoundTrip();
    } else {
      EncodeIsQuads(bytes);
      if |bytes| < 3 {
        LastQuadDecodes(bytes[0], if |bytes| == 2 then bytes[1] else -1);
        var q := Quad(bytes[0], if |bytes| == 2 then bytes[1] else -1, -1);
        assert q + "" == q;
      } else {
        RoundTrip(bytes[3..]);
        QuadDecodes(bytes[0], bytes[1], bytes[2], Encode(bytes[3..]));
        assert bytes == [bytes[0], bytes[1], bytes[2]] + bytes[3..];
      }
    }
  }

  lemma EmptyRoundTrip()
    ensures Encode([]) == "" && Strict("") && Decode("") == []
  {
    assert PaddedBy("", 0);
  }

  /** The bits of the last group that carry no byte are zero. */
  predicate Canonical(s: string)
    requires Strict(s)
  {
    s == "" || s[|s| - 1] != '=' ||
    (if s[|s| - 2] == '=' then ValueOf(s[|s| - 3]) % 16 == 0 else ValueOf(s[|s| - 2]) % 4 == 0)
  }

  lemma DigitOfValue(c: char)
    requires InAlphabet(c)
    ensures Digit(ValueOf(c)) == c
  {
  }

  /** A padded group is the last one. */
  lemma PaddedIsLast(s: string)
    requires Strict(s) && s != "" && s[3] == '='
    ensures |s| == 4 && InAlphabet(s[0]) && InAlphabet(s[1]) && (s[2] == '=' || InAlphabet(s[2]))
  {
    var pads: nat :| pads <= 2 && PaddedBy(s, pads);
  }

  /** Two digits carry one byte and four spare bits. */
  lemma OneByteGroup(c0: char, c1: char)
    requires InAlphabet(c0) && InAlphabet(c1)
    ensures var x, y := ValueOf(c0), ValueOf(c1);
            Quad(x * 4 + y / 16, -1, -1) == [c0, c1, '=', '='] <==> y % 16 == 0
  {
    hide Digit, ValueOf, InAlphabet;
    DigitOfValue(c0);
    DigitOfValue(c1);
    var x, y := ValueOf(c0), ValueOf(c1);
    assert (x * 4 + y / 16) / 4 == x && (x * 4 + y / 16) % 4 * 16 == y - y % 16;
  }

  /** Three digits carry two bytes and two spare bits. */
  lemma TwoByteGroup(c0: char, c1: char, c2: char)
    requires InAlphabet(c0) && InAlphabet(c1) && InAlphabet(c2)
    ensures var x, y, z := ValueOf(c0), ValueOf(c1), ValueOf(c2);
            Quad(x * 4 + y / 16, y % 16 * 16 + z / 4, -1) == [c0, c1, c2, '='] <==> z % 4 == 0
  {
    hide Digit, ValueOf, InAlphabet;
    DigitOfValue(c0);
    DigitOfValue(c1);
    DigitOfValue(c2);
    var x, y, z := ValueOf(c0), ValueOf(c1), ValueOf(c2);
    GroupBits(x, y, z, 0);
    assert (y % 16 * 16 + z / 4) % 16 * 4 == z - z % 4;
  }

  lemma LastGroupCanonicalIff(s: string)
    requires Strict(s) && s != "" && s[3] == '='
    ensures Encode(Decode(s)) == s <==> Canonical(s)
  {
    hide Quad, Encode, InAlphabet, ValueOf;
    PaddedIsLast(s);
    var bytes := Decode(s);
    EncodeIsQuads(bytes);
    var q := Quad(bytes[0], if 1 < |bytes| then bytes[1] else -1, -1);
    assert q + "" == q;
    if s[2] == '=' {
      OneByteGroup(s[0], s[1]);
      assert s == [s[0], s[1], '=', '='];
    } else {
      TwoByteGroup(s[0], s[1], s[2]);
      assert s == [s[0], s[1], s[2], '='];
    }
  }

  lemma DecodeFull(s: string)
    requires Strict(s) && s != "" && s[3] != '='
    ensures Strict(s[4..]) && InAlphabet(s[0]) && InAlphabet(s[1]) && InAlphabet(s[2]) && InAlphabet(s[3])
    ensures var x, y, z, w := ValueOf(s[0]), ValueOf(s[1]), ValueOf(s[2]), ValueOf(s[3]);
            Decode(s) == [x * 4 + y / 16, y % 16 * 16 + z / 4, z % 4 * 64 + w] + Decode(s[4..])
  {
    hide ValueOf, InAlphabet;
    StrictRest(s);
    FullInAlphabet(s);
  }

  lemma QuadOfDigits(c0: char, c1: char, c2: char, c3: char)
    requires InAlphabet(c0) && InAlphabet(c1) && InAlphabet(c2) && InAlphabet(c3)
    ensures var x, y, z, w := ValueOf(c0), ValueOf(c1), ValueOf(c2), ValueOf(c3);
            Quad(x * 4 + y / 16, y % 16 * 16 + z / 4, z % 4 * 64 + w) == [c0, c1, c2, c3]
  {
    hide ValueOf, InAlphabet, Digit;
    DigitOfValue(c0);
    DigitOfValue(c1);
    DigitOfValue(c2);
    DigitOfValue(c3);
    GroupBits(ValueOf(c0), ValueOf(c1), ValueOf(c2), ValueOf(c3));
  }

  /** A full group is encoded back as it stands. */
  lemma FullGroup(s: string)
    requires Strict(s) && s != "" && s[3] != '='
    ensures Strict(s[4..])
    ensures Encode(Decode(s)) == s[..4] + Encode(Decode(s[4..]))
  {
    hide Quad, Encode, Decode, InAlphabet, ValueOf;
    DecodeFull(s);
    QuadOfDigits(s[0], s[1], s[2], s[3]);
    var bytes := Decode(s);
    EncodeIsQuads(bytes);
    assert bytes[3..] == Decode(s[4..]);
    assert s[..4] == [s[0], s[1], s[2], s[3]];
  }

  lemma FullInAlphabet(s: string)
    requires Strict(s) && s != "" && s[3] != '='
    ensures |s| >= 4 && InAlphabet(s[0]) && InAlphabet(s[1]) && InAlphabet(s[2]) && InAlphabet(s[3])
  {
    var pads: nat :| pads <= 2 && PaddedBy(s, pads);
  }

  lemma GroupBits(x: int, y: int, z: int, w: int)
    requires 0 <= x < 64 && 0 <= y < 64 && 0 <= z < 64 && 0 <= w < 64
    ensures var a, b, c := x * 4 + y / 16, y % 16 * 16 + z / 4, z % 4 * 64 + w;
            a / 4 == x && a % 4 * 16 + b / 16 == y && b % 16 * 4 + c / 64 == z && c % 64 == w
  {
  }

  /** MAIN: the strict check lets through more than canonical text. Encoding what was decoded gives the text back if and
      only if the unused bits of its last group are zero. */
  lemma {:induction false} ReencodesIff(s: string)
    requires Strict(s)
    ensures Encode(Decode(s)) == s <==> Canonical(s)
    decreases |s|
  {
    hide Encode, Decode, ValueOf;
    if s == "" {
      EmptyRoundTrip();
    } else if s[3] == '=' {
      LastGroupCanonicalIff(s);
    } else {
      FullGroup(s);
      ReencodesIff(s[4..]);
      assert s == s[..4] + s[4..];
      CanonicalRest(s);
    }
  }

  lemma CanonicalRest(s: string)
    requires Strict(s) && s != "" && s[3] != '=' && Strict(s[4..])
    ensures Canonical(s) <==> Canonical(s[4..])
  {
    var rest := s[4..];
    if rest != "" {
      assert s[|s| - 1] == rest[|rest| - 1] && s[|s| - 2] == rest[|rest| - 2] && s[|s| - 3] == rest[|rest| - 3];
    }
  }

  /** Two texts that pass the check and decode to the same byte. */
  lemma StrictIsNotCanonical()
    ensures Strict("AB==") && Decode("AB==") == [0] && Encode([0]) == "AA==" && !Canonical("AB==")
  {
    hide Encode;
    var s: string := "AB==";
    assert PaddedBy(s, 2);
    assert ValueOf(s[0]) == 0 && ValueOf(s[1]) == 1;
    EncodeIsQuads([0]);
    assert Quad(0, -1, -1) == "AA==";
    assert Quad(0, -1, -1) + "" == "AA==";
  }

  datatype Evidence = Bytes(bytes: seq<Byte>) | MalformedPayload | Oversized

  /** The decoding half of `evidenceDocumentText`: canonical text, the declared length, the served bound. */
  function EvidenceBytes(text: string, byteLen: int, maxBytes: Option<int>): (e: Evidence)
  {
    if !Strict(text) then MalformedPayload
    else
      var bytes := Decode(text);
      if |bytes| != byteLen then MalformedPayload
      else if maxBytes.Some? && |bytes| > maxBytes.value then Oversized
      else Bytes(bytes)
  }

  /** A payload the encoder produced is accepted exactly when its declared length is true and within the bound,
      and then gives the same bytes. */
  lemma EncodedEvidenceIsAccepted(bytes: seq<Byte>, byteLen: int, maxBytes: Option<int>)
    ensures EvidenceBytes(Encode(bytes), byteLen, maxBytes) ==
            if byteLen != |bytes| then MalformedPayload
            else if maxBytes.Some? && |bytes| > maxBytes.value then Oversized
            else Bytes(bytes)
  {
    RoundTrip(bytes);
  }
}

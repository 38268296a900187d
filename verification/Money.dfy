/**
 Exact money and rates (apps/vscode/media/money-input.js, apps/vscode/src/money.ts, apps/vscode/src/outcomes.ts,
 apps/vscode/media/chat.js): decimal text and integers, with no rounding except where a display promises one.
 */
module Money {
  import opened Text

  const MICRO_PER_USD := 1_000_000
  const MAX_SAFE := 9_007_199_254_740_991
  const U64_MAX := 18_446_744_073_709_551_615

  // ----------------------------------------------------------------- decimals

  predicate IsDigit(c: char) { '0' <= c <= '9' }

  predicate Digits(s: string) { s != "" && forall i :: 0 <= i < |s| ==> IsDigit(s[i]) }

  function DigitOf(n: nat): (c: char)
    requires n < 10
    ensures IsDigit(c) && c as int - '0' as int == n
  {
    '0' + n as char
  }

  /** The integer a digit string denotes. */
  function Value(s: string): (n: nat)
    requires forall i :: 0 <= i < |s| ==> IsDigit(s[i])
  {
    if s == "" then 0
    else
      var last := s[|s| - 1];
      assert IsDigit(last);
      Value(s[..|s| - 1]) * 10 + (last as int - '0' as int)
  }

  /** Canonical decimal text. */
  function Show(n: nat): (s: string)
    ensures Digits(s) && Value(s) == n
  {
    if n < 10 then [DigitOf(n)] else Show(n / 10) + [DigitOf(n % 10)]
  }

  /** Exactly `w` digits, zero-filled on the left. */
  function Pad(n: nat, w: nat): (s: string)
    ensures |s| == w && (forall i :: 0 <= i < |s| ==> IsDigit(s[i]))
  {
    if w == 0 then "" else Pad(n / 10, w - 1) + [DigitOf(n % 10)]
  }

  function Pow10(w: nat): (p: nat)
    ensures p > 0
  {
    if w == 0 then 1 else 10 * Pow10(w - 1)
  }

  lemma {:induction false} PadValue(n: nat, w: nat)
    requires n < Pow10(w)
    ensures Value(Pad(n, w)) == n
  {
    if w > 0 {
      PadValue(n / 10, w - 1);
      var s := Pad(n, w);
      assert s[..|s| - 1] == Pad(n / 10, w - 1);
    }
  }

  /** `n` with `w` zeros appended to its decimals. */
  function Shift(n: nat, w: nat): (m: nat)
  {
    if w == 0 then n else 10 * Shift(n, w - 1)
  }

  function Zeros(w: nat): (s: string) { seq(w, _ => '0') }

  lemma {:induction false} ValueOfZeros(s: string, w: nat)
    requires forall i :: 0 <= i < |s| ==> IsDigit(s[i])
    ensures Value(s + Zeros(w)) == Shift(Value(s), w)
  {
    if w == 0 {
      assert s + Zeros(0) == s;
    } else {
      var t := s + Zeros(w);
      assert t[..|t| - 1] == s + Zeros(w - 1);
      ValueOfZeros(s, w - 1);
    }
  }

  // ------------------------------------------------------------ dollar input

  /** The first dot, or the length. */
  function DotAt(s: string): (i: nat)
    ensures i <= |s| && '.' !in s[..i] && (i < |s| ==> s[i] == '.')
  {
    if s == "" then 0 else if s[0] == '.' then 0 else 1 + DotAt(s[1..])
  }

  /** `padEnd(6, '0')`. */
  function PadEnd6(s: string): (t: string)
    requires |s| <= 6
  {
    s + Zeros(6 - |s|)
  }

  /** Digits and at most six decimals, in micro-USD. */
  function ParseAmount(s: string): (r: Option<nat>)
    ensures r.Some? ==> r.value <= MAX_SAFE
  {
    var dot := DotAt(s);
    var whole, fraction := s[..dot], if dot < |s| then s[dot + 1..] else "";
    if !Digits(whole) || (dot < |s| && !(Digits(fraction) && |fraction| <= 6)) then None
    else AmountOf(whole, fraction)
  }

  function AmountOf(whole: string, fraction: string): (r: Option<nat>)
    requires Digits(whole) && (fraction == "" || Digits(fraction)) && |fraction| <= 6
    ensures r.Some? ==> r.value <= MAX_SAFE
  {
    var micro := Value(whole) * MICRO_PER_USD + Value(PadEnd6(fraction));
    if micro > MAX_SAFE then None else Some(micro)
  }

  /** The dollar-labelled field: an exact amount with an optional dollar sign, or a refusal. */
  function ParseDollar(text: string): (r: Option<nat>)
  {
    ParseAmount(if StartsWith(text, "$") then text[1..] else text)
  }

  /** A micro-USD amount with its six decimals. */
  function ShowDollar(micro: nat): (s: string)
  {
    "$" + (Show(micro / MICRO_PER_USD) + "." + Pad(micro % MICRO_PER_USD, 6))
  }

  lemma {:induction false} DotAfterDigits(whole: string, fraction: string)
    requires forall i :: 0 <= i < |whole| ==> IsDigit(whole[i])
    ensures DotAt(whole + "." + fraction) == |whole|
  {
    var s := whole + "." + fraction;
    if whole != "" {
      assert s[0] == whole[0] && IsDigit(whole[0]);
      assert s[1..] == whole[1..] + "." + fraction;
      DotAfterDigits(whole[1..], fraction);
    }
  }

  /** MAIN: every amount written as digits with one to six decimals, with or without the dollar sign, is read as
      exactly that many micro-USD, and is accepted exactly up to 2^53-1. */
  lemma {:induction false} DollarIsExact(whole: string, fraction: string, sign: bool)
    requires Digits(whole) && Digits(fraction) && |fraction| <= 6
    ensures var micro := Value(whole) * MICRO_PER_USD + Shift(Value(fraction), 6 - |fraction|);
            ParseDollar((if sign then "$" else "") + (whole + "." + fraction)) ==
              if micro <= MAX_SAFE then Some(micro) else None
  {
    hide ParseAmount;
    var s := whole + "." + fraction;
    AmountIsExact(whole, fraction);
    if sign {
      var text := "$" + s;
      assert text[1..] == s && text[..1] == "$";
    } else {
      assert "" + s == s;
      assert s[..1][0] == whole[0] && IsDigit(whole[0]);
    }
  }

  /** An amount of whole dollars, without decimals. */
  lemma {:induction false} WholeDollarIsExact(whole: string, sign: bool)
    requires Digits(whole)
    ensures var micro := Value(whole) * MICRO_PER_USD;
            ParseDollar((if sign then "$" else "") + whole) == if micro <= MAX_SAFE then Some(micro) else None
  {
    hide Value, DotAt;
    DotAfterAll(whole);
    assert IsDigit(whole[0]) && whole[..1][0] == whole[0];
    assert whole[..|whole|] == whole && "" + whole == whole;
    assert ("$" + whole)[1..] == whole && ("$" + whole)[..1] == "$";
    ValueOfZeros("", 6);
    EmptyValue();
    ShiftZero(6);
  }

  /** The text is a dollar amount: an optional sign, digits, and a dot with one to six decimals if there are any. */
  ghost predicate Amount(text: string, sign: bool, whole: string, fraction: string)
  {
    && Digits(whole) && (fraction == "" || Digits(fraction)) && |fraction| <= 6
    && text == (if sign then "$" else "") + (if fraction == "" then whole else whole + "." + fraction)
  }

  function MicroOf(whole: string, fraction: string): (micro: nat)
    requires Digits(whole) && (fraction == "" || Digits(fraction)) && |fraction| <= 6
  {
    Value(whole) * MICRO_PER_USD + (if fraction == "" then 0 else Shift(Value(fraction), 6 - |fraction|))
  }

  lemma {:induction false} AmountIsRead(text: string, sign: bool, whole: string, fraction: string)
    requires Amount(text, sign, whole, fraction)
    ensures var micro := MicroOf(whole, fraction);
            ParseDollar(text) == if micro <= MAX_SAFE then Some(micro) else None
  {
    hide ParseDollar, Value, Shift;
    if fraction == "" {
      WholeDollarIsExact(whole, sign);
    } else {
      DollarIsExact(whole, fraction, sign);
    }
  }

  lemma {:induction false} ReadHasParts(s: string) returns (whole: string, fraction: string)
    requires ParseAmount(s).Some?
    ensures Digits(whole) && (fraction == "" || Digits(fraction)) && |fraction| <= 6
    ensures s == if fraction == "" then whole else whole + "." + fraction
  {
    hide AmountOf, DotAt, IsDigit;
    var dot := DotAt(s);
    whole, fraction := s[..dot], if dot < |s| then s[dot + 1..] else "";
    if dot < |s| {
      assert s == whole + "." + fraction;
    }
  }

  /** What is read has the form of an amount. */
  lemma {:induction false} ReadIsAmount(text: string) returns (sign: bool, whole: string, fraction: string)
    requires ParseDollar(text).Some?
    ensures Amount(text, sign, whole, fraction)
  {
    hide ParseAmount, Digits;
    sign := StartsWith(text, "$");
    var s := if sign then text[1..] else text;
    whole, fraction := ReadHasParts(s);
    assert text == (if sign then "$" else "") + s;
  }

  /** MAIN: text is accepted if and only if it is an amount of at most 2^53-1 micro-USD. */
  lemma {:induction false} DollarAcceptedIff(text: string)
    ensures ParseDollar(text).Some? <==>
              exists sign, whole, fraction ::
                Amount(text, sign, whole, fraction) && MicroOf(whole, fraction) <= MAX_SAFE
  {
    hide ParseDollar, MicroOf;
    if ParseDollar(text).Some? {
      var sign, whole, fraction := ReadIsAmount(text);
      AmountIsRead(text, sign, whole, fraction);
    }
    forall sign, whole, fraction | Amount(text, sign, whole, fraction)
      ensures MicroOf(whole, fraction) <= MAX_SAFE ==> ParseDollar(text).Some?
    {
      AmountIsRead(text, sign, whole, fraction);
    }
  }

  lemma {:induction false} AmountIsExact(whole: string, fraction: string)
    requires Digits(whole) && Digits(fraction) && |fraction| <= 6
    ensures var micro := Value(whole) * MICRO_PER_USD + Shift(Value(fraction), 6 - |fraction|);
            ParseAmount(whole + "." + fraction) == if micro <= MAX_SAFE then Some(micro) else None
  {
    hide Value, Shift, ParseAmount;
    ParseSplits(whole, fraction);
    ValueOfZeros(fraction, 6 - |fraction|);
  }

  lemma {:induction false} ParseSplits(whole: string, fraction: string)
    requires Digits(whole) && Digits(fraction) && |fraction| <= 6
    ensures ParseAmount(whole + "." + fraction) == AmountOf(whole, fraction)
  {
    hide AmountOf, DotAt, IsDigit;
    var s := whole + "." + fraction;
    DotAfterDigits(whole, fraction);
    assert s[..|whole|] == whole && s[|whole| + 1..] == fraction;
  }

  /** Printing an amount with six decimals and parsing it gives the amount back. */
  lemma {:induction false} DollarRoundTrip(micro: nat)
    ensures ParseDollar(ShowDollar(micro)) == if micro <= MAX_SAFE then Some(micro) else None
  {
    hide Pad, Show, Value, Pow10, ParseDollar;
    Powers();
    var fraction := Pad(micro % MICRO_PER_USD, 6);
    PadValue(micro % MICRO_PER_USD, 6);
    DollarIsExact(Show(micro / MICRO_PER_USD), fraction, true);
  }

  lemma Powers()
    ensures Pow10(0) == 1 && Pow10(1) == 10 && Pow10(2) == 100 && Pow10(3) == 1000
    ensures Pow10(4) == 10_000 && Pow10(5) == 100_000 && Pow10(6) == 1_000_000
  {
    assert Pow10(3) == 10 * Pow10(2);
    assert Pow10(5) == 10 * Pow10(4);
  }

  // --------------------------------------------------------------- wire forms

  /** `microFromDecimal`: plain digits within u64. */
  function FromDecimal(text: string): (r: Option<nat>)
  {
    if Digits(text) && Value(text) <= U64_MAX then Some(Value(text)) else None
  }

  /** A JSON value that carries money: a number or a decimal string. */
  datatype Wire = Number(n: int) | Decimal(text: string)

  /** `microWireValue`: a number only while a double holds it exactly. */
  function ToWire(micro: nat): (w: Wire)
    ensures w.Number? ==> w.n <= MAX_SAFE
  {
    if micro <= MAX_SAFE then Number(micro) else Decimal(Show(micro))
  }

  /** The reader: a number must be a safe non-negative integer (`microFromNumber`). */
  function FromWire(w: Wire): (r: Option<nat>)
  {
    match w
    case Number(n) => if 0 <= n <= MAX_SAFE then Some(n) else None
    case Decimal(text) => FromDecimal(text)
  }

  /** Every u64 amount survives the wire, and nothing larger is read. */
  lemma {:induction false} WireRoundTrip(micro: nat)
    ensures FromWire(ToWire(micro)) == if micro <= U64_MAX then Some(micro) else None
    ensures ToWire(micro).Number? <==> micro <= MAX_SAFE
  {
    hide Value, Show;
    assert Digits(Show(micro)) && Value(Show(micro)) == micro;
  }

  /** The reader of decimals takes every u64 amount, and the reader of numbers every safe non-negative one. */
  lemma {:induction false} ReadersAccept(micro: nat, n: int)
    ensures FromDecimal(Show(micro)) == if micro <= U64_MAX then Some(micro) else None
    ensures FromWire(Number(n)).Some? <==> 0 <= n <= MAX_SAFE
    ensures FromWire(Number(n)).Some? ==> FromWire(Number(n)).value == n
  {
    hide Value, Show;
    assert Digits(Show(micro)) && Value(Show(micro)) == micro;
  }

  // ---------------------------------------------------------------- displays

  datatype Shown = Shown(whole: nat, fraction: nat)

  /** `microUsdText` of a magnitude: four decimals, rounded half up, with the carry. */
  function UsdText(micro: nat): (d: Shown)
  {
    var whole, remainder := micro / MICRO_PER_USD, micro % MICRO_PER_USD;
    var fraction := (remainder * 10_000 + MICRO_PER_USD / 2) / MICRO_PER_USD;
    if fraction >= 10_000 then Shown(whole + 1, fraction - 10_000) else Shown(whole, fraction)
  }

  /** `usdMicro` of an amount it prints in cents. */
  function UsdCents(micro: nat): (d: Shown)
  {
    var whole, remainder := micro / MICRO_PER_USD, micro % MICRO_PER_USD;
    var cents := (remainder + 5000) / 10_000;
    if cents >= 100 then Shown(whole + 1, cents - 100) else Shown(whole, cents)
  }

  lemma {:induction false} CarryRounds(micro: nat)
    ensures var d := UsdText(micro);
            d.fraction < 10_000 && -50 < (d.whole * 10_000 + d.fraction) * 100 - micro <= 50
    ensures var d := UsdCents(micro);
            d.fraction < 100 && -5000 < (d.whole * 100 + d.fraction) * 10_000 - micro <= 5000
  {
    var remainder := micro % MICRO_PER_USD;
    assert (remainder * 10_000 + MICRO_PER_USD / 2) / MICRO_PER_USD == (remainder + 50) / 100;
  }

  function DecimalText(d: Shown, w: nat): (s: string) { Show(d.whole) + "." + Pad(d.fraction, w) }

  function Abs(n: int): (m: nat) { if n < 0 then -n else n }

  /** `microUsdText`: a sign, the dollars, and four decimals. */
  function MicroUsdText(value: int): (s: string)
  {
    (if value < 0 then "-" else "") + DecimalText(UsdText(Abs(value)), 4)
  }

  /** `usdMicro`: nothing, less than a cent, or dollars and cents. */
  function UsdMicro(micro: nat): (s: string)
  {
    if micro == 0 then "$0.00"
    else if micro < 10_000 then "under $0.01"
    else "$" + DecimalText(UsdCents(micro), 2)
  }

  /** Digits, a dot and exactly `w` decimals, as a number of the last unit. */
  function ReadUnsigned(s: string, w: nat): (r: Option<nat>)
  {
    var dot := DotAt(s);
    if dot == |s| then None
    else
      var whole, fraction := s[..dot], s[dot + 1..];
      if !Digits(whole) || !Digits(fraction) || |fraction| != w then None
      else Some(Value(whole) * Pow10(w) + Value(fraction))
  }

  /** The same with an optional minus sign. */
  function ReadDecimal(s: string, w: nat): (r: Option<int>)
  {
    if StartsWith(s, "-") then
      var r: Option<int> := ReadUnsigned(s[1..], w);
      if r.Some? then Some(-r.value) else None
    else ReadUnsigned(s, w)
  }

  lemma {:induction false} UnsignedReads(d: Shown, w: nat)
    requires w > 0 && d.fraction < Pow10(w)
    ensures ReadUnsigned(DecimalText(d, w), w) == Some(d.whole * Pow10(w) + d.fraction)
  {
    hide Show, Pad, Value, Pow10, DotAt;
    var whole, fraction := Show(d.whole), Pad(d.fraction, w);
    var s := DecimalText(d, w);
    PadValue(d.fraction, w);
    DotAfterDigits(whole, fraction);
    assert s[..|whole|] == whole && s[|whole| + 1..] == fraction;
  }

  lemma {:induction false} DecimalReads(d: Shown, w: nat, negative: bool)
    requires w > 0 && d.fraction < Pow10(w)
    ensures var n := d.whole * Pow10(w) + d.fraction;
            ReadDecimal((if negative then "-" else "") + DecimalText(d, w), w) == Some(if negative then -n else n)
  {
    hide Show, Pad, Pow10, ReadUnsigned;
    var whole, s := Show(d.whole), DecimalText(d, w);
    UnsignedReads(d, w);
    assert ("-" + s)[1..] == s && ("-" + s)[..1] == "-" && "" + s == s;
    assert s[..1][0] == whole[0] && IsDigit(whole[0]);
  }

  /** MAIN: despite the carry both displays are proper decimal texts within half a display unit of the amount, ties
      going away from zero; a signed amount keeps its sign. */
  lemma {:induction false} DisplaysRoundHalfUp(value: int, micro: nat)
    ensures var r := ReadDecimal(MicroUsdText(value), 4);
            && r.Some?
            && (value >= 0 ==> -50 < r.value * 100 - value <= 50)
            && (value < 0 ==> -50 <= r.value * 100 - value < 50)
    ensures micro >= 10_000 ==>
              && UsdMicro(micro)[..1] == "$"
              && var r := ReadDecimal(UsdMicro(micro)[1..], 2);
                 r.Some? && -5000 < r.value * 10_000 - micro <= 5000
  {
    hide UsdText, UsdCents, ReadDecimal, DecimalText, Pow10;
    Powers();
    CarryRounds(Abs(value));
    DecimalReads(UsdText(Abs(value)), 4, value < 0);
    CarryRounds(micro);
    var cents := DecimalText(UsdCents(micro), 2);
    DecimalReads(UsdCents(micro), 2, false);
    assert "" + cents == cents && ("$" + cents)[1..] == cents && ("$" + cents)[..1] == "$";
  }

  /** Nothing and less than a cent have their own words. */
  lemma SmallAmounts(micro: nat)
    ensures UsdMicro(micro) == "$0.00" <==> micro == 0
    ensures UsdMicro(micro) == "under $0.01" <==> 0 < micro < 10_000
  {
    if micro >= 10_000 {
      NotBelowACent(micro);
    }
  }

  lemma NotBelowACent(micro: nat)
    requires micro >= 10_000
    ensures UsdMicro(micro) != "$0.00" && UsdMicro(micro) != "under $0.01"
  {
    hide ReadDecimal;
    DisplaysRoundHalfUp(0, micro);
    assert "under $0.01"[..1][0] == 'u' && UsdMicro(micro)[..1][0] == '$';
    if UsdMicro(micro) == "$0.00" {
      assert "$0.00"[1..] == "0.00";
      ZeroReads();
    }
  }

  lemma ZeroReads()
    ensures ReadDecimal("0.00", 2) == Some(0)
  {
    Powers();
    DecimalReads(Shown(0, 0), 2, false);
    assert Show(0) == "0" && Pad(0, 2) == "00" by { assert Pad(0, 1) == "0"; }
    assert "" + DecimalText(Shown(0, 0), 2) == "0.00";
  }

  // ------------------------------------------------------------------- rates

  /** Without its trailing zeros. */
  function Trim(s: string): (t: string)
    ensures t <= s
  {
    if s != "" && s[|s| - 1] == '0' then Trim(s[..|s| - 1]) else s
  }

  /** `formatPpm` of a served non-negative integer rate. */
  function FormatPpm(ppm: nat): (s: string)
  {
    var whole, fraction := ppm / 10_000, ppm % 10_000;
    if fraction == 0 then Show(whole) + "%" else Show(whole) + "." + Trim(Pad(fraction, 4)) + "%"
  }

  /** Percent text read back as parts per million. */
  function ReadPercent(s: string): (r: Option<nat>)
  {
    if s == "" || s[|s| - 1] != '%' then None
    else
      var body := s[..|s| - 1];
      var dot := DotAt(body);
      var whole, fraction := body[..dot], if dot < |body| then body[dot + 1..] else "";
      if !Digits(whole) || (dot < |body| && !(Digits(fraction) && |fraction| <= 4)) then None
      else Some(Value(whole) * 10_000 + Value(fraction + Zeros(4 - |fraction|)))
  }

  lemma {:induction false} TrimValue(s: string)
    requires forall i :: 0 <= i < |s| ==> IsDigit(s[i])
    ensures forall i :: 0 <= i < |Trim(s)| ==> IsDigit(Trim(s)[i])
    ensures Trim(s) + Zeros(|s| - |Trim(s)|) == s
  {
    if s != "" && s[|s| - 1] == '0' {
      var init := s[..|s| - 1];
      TrimValue(init);
      assert s == init + "0";
    } else {
      assert s + Zeros(0) == s;
    }
  }

  lemma {:induction false} DotAfterAll(whole: string)
    requires forall i :: 0 <= i < |whole| ==> IsDigit(whole[i])
    ensures DotAt(whole) == |whole|
  {
    var d := DotAt(whole);
    assert d < |whole| ==> IsDigit(whole[d]);
  }

  /** MAIN: a formatted rate reads back to the same parts per million. */
  lemma {:induction false} PpmRoundTrip(ppm: nat)
    ensures ReadPercent(FormatPpm(ppm)) == Some(ppm)
  {
    hide Pad, Show, Value, Pow10, DotAt, Trim;
    var whole, fraction := Show(ppm / 10_000), ppm % 10_000;
    Powers();
    PadValue(fraction, 4);
    var padded := Pad(fraction, 4);
    TrimValue(padded);
    var digits := Trim(padded);
    if fraction == 0 {
      var s := whole + "%";
      assert s[..|s| - 1] == whole;
      DotAfterAll(whole);
      assert whole[..|whole|] == whole;
      assert Value("" + Zeros(4)) == 0 by { ValueOfZeros("", 4); EmptyValue(); ShiftZero(4); }
    } else {
      var body := whole + "." + digits;
      var s := body + "%";
      assert FormatPpm(ppm) == s;
      assert s[..|s| - 1] == body;
      DotAfterDigits(whole, digits);
      assert body[..|whole|] == whole && body[|whole| + 1..] == digits;
      assert digits != "" by { ZerosAreZero(padded); }
    }
  }

  /** A formatted rate is as short as can be: no decimals for whole percents, and otherwise no zero at the end. */
  lemma {:induction false} PpmIsShort(ppm: nat)
    ensures var s := FormatPpm(ppm);
            && s != "" && s[|s| - 1] == '%'
            && ('.' in s <==> ppm % 10_000 != 0)
            && (ppm % 10_000 != 0 ==> |s| >= 2 && s[|s| - 2] != '0' && s[|s| - 2] != '.')
  {
    hide Pad, Show, Value, Pow10;
    var whole, fraction := Show(ppm / 10_000), ppm % 10_000;
    if fraction == 0 {
      assert '.' !in whole by { assert forall i :: 0 <= i < |whole| ==> IsDigit(whole[i]); }
    } else {
      var padded := Pad(fraction, 4);
      Powers();
      PadValue(fraction, 4);
      ZerosAreZero(padded);
      TrimValue(padded);
      var digits, s := Trim(padded), FormatPpm(ppm);
      TrimEnds(padded);
      assert s == whole + "." + digits + "%";
      assert s[|s| - 2] == digits[|digits| - 1] && s[|whole|] == '.';
      assert IsDigit(digits[|digits| - 1]);
    }
  }

  lemma {:induction false} TrimEnds(s: string)
    ensures Trim(s) != "" ==> Trim(s)[|Trim(s)| - 1] != '0'
  {
    if s != "" && s[|s| - 1] == '0' {
      TrimEnds(s[..|s| - 1]);
    }
  }

  lemma {:induction false} ShiftZero(w: nat)
    ensures Shift(0, w) == 0
  {
    if w > 0 {
      ShiftZero(w - 1);
    }
  }

  lemma EmptyValue()
    ensures Value("") == 0
  {
  }

  lemma {:induction false} ZerosAreZero(s: string)
    requires forall i :: 0 <= i < |s| ==> IsDigit(s[i])
    ensures Trim(s) == "" ==> Value(s) == 0
  {
    TrimValue(s);
    ValueOfZeros("", |s|);
    ShiftZero(|s|);
    assert "" + Zeros(|s|) == Zeros(|s|);
  }
}
